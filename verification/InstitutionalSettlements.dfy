/** settlement-distributions/institutional-distribution: payouts to stakers and distributors become one settlement
    per vote account, merged claim by claim. */
module InstitutionalSettlements {
  import opened Wrappers
  import opened Bytes
  import opened Sums
  import opened Sorting
  import opened SettlementCollections

  datatype PayoutStaker = PayoutStaker(
    voteAccount: Pubkey,
    stakeAccounts: seq<(Pubkey, u64)>,
    staker: Pubkey,
    withdrawer: Pubkey,
    effectiveStake: u64,
    payoutLamports: u64)

  datatype PayoutDistributor = PayoutDistributor(voteAccount: Pubkey, payoutLamports: u64)

  datatype Config = Config(
    funder: SettlementFunder,
    marinadeWithdrawAuthority: Pubkey,
    marinadeStakeAuthority: Pubkey,
    daoFeeSplitShareBps: u64,
    daoWithdrawAuthority: Pubkey,
    daoStakeAuthority: Pubkey)

  datatype PayoutKind = Staker | Fee

  datatype Payout = Payout(
    voteAccount: Pubkey,
    withdrawer: Pubkey,
    staker: Pubkey,
    stakeAmount: u64,
    payoutLamports: u64,
    stakeAccounts: map<Pubkey, u64>,
    kind: PayoutKind)

  /** The panics: `assert_eq!` on a staker's stake, and a checked addition. */
  datatype Panic = StakeMismatch | AmountOverflow

  // ------------------------------------------------------------------- sums over a map

  function ValueAt(m: map<Pubkey, u64>): Pubkey -> int {
    (k: Pubkey) => if k in m then m[k] else 0
  }

  /** The sum of a map's values. */
  ghost function SumValues(m: map<Pubkey, u64>): nat {
    SetSumNonNegative(ValueAt(m), m.Keys);
    SetSum(ValueAt(m), m.Keys)
  }

  /** The sum does not depend on the order in which the map is walked. */
  lemma SumValuesPick(m: map<Pubkey, u64>, k: Pubkey)
    requires k in m
    ensures SumValues(m) == m[k] + SumValues(m - {k})
  {
    SetSumTake(ValueAt(m), m.Keys, k);
    assert (m - {k}).Keys == m.Keys - {k};
    SetSumSame(ValueAt(m), ValueAt(m - {k}), m.Keys - {k});
  }

  lemma SumValuesInsert(m: map<Pubkey, u64>, k: Pubkey, v: u64)
    ensures SumValues(m[k := v]) == SumValues(m) + v - if k in m then m[k] else 0
  {
    SumValuesPick(m[k := v], k);
    if k in m {
      SumValuesPick(m, k);
      assert m[k := v] - {k} == m - {k};
    } else {
      assert m[k := v] - {k} == m;
    }
  }

  lemma SumValuesBound(m: map<Pubkey, u64>, k: Pubkey)
    requires k in m
    ensures m[k] <= SumValues(m)
  {
    SumValuesPick(m, k);
  }

  /** `values().sum()`, walking the map in any order; None is the panic of the checked sum. */
  method SumOfValues(m: map<Pubkey, u64>) returns (r: Option<u64>)
    ensures r == if SumValues(m) <= U64_MAX then Some(SumValues(m)) else None
  {
    var sum: u64 := 0;
    var rest := m;
    while rest != map[]
      invariant sum + SumValues(rest) == SumValues(m)
      decreases |rest|
    {
      var k :| k in rest;
      SumValuesPick(rest, k);
      assert (rest - {k}).Keys == rest.Keys - {k};
      if sum + rest[k] > U64_MAX {
        return None;
      }
      sum := sum + rest[k];
      rest := rest - {k};
    }
    r := Some(sum);
  }

  // ------------------------------------------------------------------- payouts

  /** Collecting (address, stake) pairs into a hash map: a later pair replaces an earlier one. */
  function AccountMap(accounts: seq<(Pubkey, u64)>): map<Pubkey, u64> {
    if accounts == [] then map[] else
    AccountMap(accounts[..|accounts| - 1])[accounts[|accounts| - 1].0 := accounts[|accounts| - 1].1]
  }

  function StakerPayoutOf(): PayoutStaker -> Payout {
    (ps: PayoutStaker) =>
      Payout(ps.voteAccount, ps.withdrawer, ps.staker, ps.effectiveStake, ps.payoutLamports,
             AccountMap(ps.stakeAccounts), Staker)
  }

  function DaoPayout(config: Config, lamports: u64): u64 {
    SatMul(lamports, config.daoFeeSplitShareBps) / 10_000
  }

  function MarinadePayout(config: Config, lamports: u64): u64 {
    SatSub(lamports, DaoPayout(config, lamports))
  }

  function FeePayouts(config: Config): PayoutDistributor -> seq<Payout> {
    (d: PayoutDistributor) => [
      Payout(d.voteAccount, config.marinadeWithdrawAuthority, config.marinadeStakeAuthority, 0,
             MarinadePayout(config, d.payoutLamports), map[], Fee),
      Payout(d.voteAccount, config.daoWithdrawAuthority, config.daoStakeAuthority, 0,
             DaoPayout(config, d.payoutLamports), map[], Fee)]
  }

  function StakerPayouts(stakers: seq<PayoutStaker>): seq<Payout> {
    seq(|stakers|, i requires 0 <= i < |stakers| => StakerPayoutOf()(stakers[i]))
  }

  /** All payouts, stakers before fees. */
  function Payouts(config: Config, stakers: seq<PayoutStaker>, distributors: seq<PayoutDistributor>): seq<Payout> {
    StakerPayouts(stakers) + FlatMap(FeePayouts(config), distributors)
  }

  /** A staker's stake accounts add up to the stake stated for the staker. */
  ghost predicate StakeMatches(ps: PayoutStaker) {
    SumValues(AccountMap(ps.stakeAccounts)) == ps.effectiveStake
  }

  method CollectAccounts(accounts: seq<(Pubkey, u64)>) returns (m: map<Pubkey, u64>)
    ensures m == AccountMap(accounts)
  {
    m := map[];
    for i := 0 to |accounts|
      invariant m == AccountMap(accounts[..i])
    {
      assert accounts[..i + 1][..i] == accounts[..i];
      m := m[accounts[i].0 := accounts[i].1];
    }
    assert accounts[..|accounts|] == accounts;
  }

  /** `merge_payouts`. */
  method MergePayouts(config: Config, stakers: seq<PayoutStaker>, distributors: seq<PayoutDistributor>)
    returns (r: Result<seq<Payout>, Panic>)
    ensures r.Success? <==> forall ps :: ps in stakers ==> StakeMatches(ps)
    ensures r.Success? ==> r.value == Payouts(config, stakers, distributors)
  {
    var payouts: seq<Payout> := [];
    for i := 0 to |stakers|
      invariant payouts == StakerPayouts(stakers[..i])
      invariant forall j :: 0 <= j < i ==> StakeMatches(stakers[j])
    {
      var payoutStaker := stakers[i];
      var stakeAccounts := CollectAccounts(payoutStaker.stakeAccounts);
      var effectiveStake := SumOfValues(stakeAccounts);
      assert payoutStaker in stakers;
      if effectiveStake.None? {
        return Failure(AmountOverflow);
      }
      if effectiveStake.value != payoutStaker.effectiveStake {
        return Failure(StakeMismatch);
      }
      payouts := payouts + [Payout(payoutStaker.voteAccount, payoutStaker.withdrawer, payoutStaker.staker,
                                   payoutStaker.effectiveStake, payoutStaker.payoutLamports, stakeAccounts, Staker)];
      assert StakerPayouts(stakers[..i + 1]) == StakerPayouts(stakers[..i]) + [StakerPayoutOf()(payoutStaker)];
    }
    assert stakers[..|stakers|] == stakers;
    for i := 0 to |distributors|
      invariant payouts == Payouts(config, stakers, distributors[..i])
    {
      var d := distributors[i];
      var daoPayout := SatMul(d.payoutLamports, config.daoFeeSplitShareBps) / 10_000;
      var marinadePayout := SatSub(d.payoutLamports, daoPayout);
      FlatMapSnoc(FeePayouts(config), distributors[..i], d);
      assert distributors[..i + 1] == distributors[..i] + [d];
      payouts := payouts + [Payout(d.voteAccount, config.marinadeWithdrawAuthority, config.marinadeStakeAuthority, 0,
                                   marinadePayout, map[], Fee)];
      payouts := payouts + [Payout(d.voteAccount, config.daoWithdrawAuthority, config.daoStakeAuthority, 0,
                                   daoPayout, map[], Fee)];
    }
    assert distributors[..|distributors|] == distributors;
    r := Success(payouts);
  }

  // ------------------------------------------------------- what the settlements hold

  /** What claims are merged by. */
  datatype ClaimId = ClaimId(voteAccount: Pubkey, key: SettlementKey, isStaker: bool)

  function IdOf(): Payout -> ClaimId {
    (p: Payout) => ClaimId(p.voteAccount, SettlementKey(p.withdrawer, p.staker), p.kind.Staker?)
  }

  function ClaimIdOf(v: Pubkey, c: SettlementClaim): ClaimId {
    ClaimId(v, KeyOf(c), c.detail.StakerPayout?)
  }

  function VoteOf(): Payout -> Pubkey {
    (p: Payout) => p.voteAccount
  }

  function Lamports(): Payout -> int {
    (p: Payout) => p.payoutLamports
  }

  function Stake(): Payout -> int {
    (p: Payout) => p.stakeAmount
  }

  function StakeIn(a: Pubkey): Payout -> int {
    (p: Payout) => Held(p.stakeAccounts, a)
  }

  function Held(m: map<Pubkey, u64>, a: Pubkey): int {
    if a in m then m[a] else 0
  }

  ghost predicate HasAccount(payouts: seq<Payout>, id: ClaimId, a: Pubkey) {
    exists p :: p in payouts && IdOf()(p) == id && a in p.stakeAccounts
  }

  /** `accounts` adds up, address by address, the stake accounts of the payouts with `id`. */
  ghost predicate AccountsAdded(payouts: seq<Payout>, id: ClaimId, accounts: map<Pubkey, u64>) {
    forall a ::
      && (a in accounts <==> HasAccount(payouts, id, a))
      && (a in accounts ==> accounts[a] == KeySum(IdOf(), StakeIn(a), id, payouts))
  }

  /** `c` is the one claim that `payouts` require for `id`. */
  ghost predicate IsClaimFor(payouts: seq<Payout>, id: ClaimId, c: SettlementClaim) {
    && HasKey(IdOf(), id, payouts)
    && ClaimIdOf(id.voteAccount, c) == id
    && c.claimAmount == KeySum(IdOf(), Lamports(), id, payouts)
    && !c.detail.Marker?
    && (id.isStaker ==>
          && c.detail.activeStake == KeySum(IdOf(), Stake(), id, payouts)
          && c.detail.activatingStake == 0
          && AccountsAdded(payouts, id, c.detail.stakeAccounts))
  }

  predicate StakersFirst(claims: seq<SettlementClaim>) {
    forall i, j :: 0 <= i < j < |claims| ==> StakerFirst()(claims[i], claims[j])
  }

  function StakerFirst(): (SettlementClaim, SettlementClaim) -> bool {
    (a: SettlementClaim, b: SettlementClaim) => a.detail.StakerPayout? || !b.detail.StakerPayout?
  }

  /** `claims` holds one claim for each id of vote account `v`, stakers before fees. */
  ghost predicate AreClaims(payouts: seq<Payout>, v: Pubkey, claims: seq<SettlementClaim>) {
    && (forall i :: 0 <= i < |claims| ==> IsClaimFor(payouts, ClaimIdOf(v, claims[i]), claims[i]))
    && (forall i, j :: 0 <= i < j < |claims| ==> ClaimIdOf(v, claims[i]) != ClaimIdOf(v, claims[j]))
    && (forall p :: p in payouts && p.voteAccount == v ==> HasClaim(v, claims, IdOf()(p)))
    && StakersFirst(claims)
  }

  ghost predicate HasClaim(v: Pubkey, claims: seq<SettlementClaim>, id: ClaimId) {
    exists i :: 0 <= i < |claims| && ClaimIdOf(v, claims[i]) == id
  }

  ghost predicate SettledFor(config: Config, payouts: seq<Payout>, v: Pubkey, st: Settlement) {
    && st.funder == config.funder && st.voteAccount == v && st.claimsCount == 0
    && st.claimsAmount == KeySum(VoteOf(), Lamports(), v, payouts)
    && AreClaims(payouts, v, st.claims)
  }

  /** The state of the map of settlements after `payouts`. */
  ghost predicate Settled(config: Config, payouts: seq<Payout>, settlements: map<Pubkey, Settlement>) {
    && (forall v :: v in settlements <==> HasKey(VoteOf(), v, payouts))
    && (forall v :: v in settlements ==> SettledFor(config, payouts, v, settlements[v]))
  }

  // --------------------------------------------------------------- adding one payout

  /** What `merge_payouts` guarantees of each payout. */
  ghost predicate ValidPayout(p: Payout) {
    SumValues(p.stakeAccounts) == p.stakeAmount && (p.kind.Fee? ==> p.stakeAccounts == map[])
  }

  lemma HasAccountSnoc(payouts: seq<Payout>, p: Payout, id: ClaimId, a: Pubkey)
    ensures HasAccount(payouts + [p], id, a)
       <==> HasAccount(payouts, id, a) || (IdOf()(p) == id && a in p.stakeAccounts)
  {
    assert p in payouts + [p];
    assert forall y :: y in payouts + [p] <==> y in payouts || y == p;
  }

  /** A payout with another id leaves a claim as it is. */
  lemma ClaimUntouched(payouts: seq<Payout>, p: Payout, id: ClaimId, c: SettlementClaim)
    requires IsClaimFor(payouts, id, c) && IdOf()(p) != id
    ensures IsClaimFor(payouts + [p], id, c)
  {
    HasKeySnoc(IdOf(), id, payouts, p);
    KeySumSnoc(IdOf(), Lamports(), id, payouts, p);
    KeySumSnoc(IdOf(), Stake(), id, payouts, p);
    forall a
      ensures HasAccount(payouts + [p], id, a) <==> HasAccount(payouts, id, a)
      ensures KeySum(IdOf(), StakeIn(a), id, payouts + [p]) == KeySum(IdOf(), StakeIn(a), id, payouts)
    {
      HasAccountSnoc(payouts, p, id, a);
      KeySumSnoc(IdOf(), StakeIn(a), id, payouts, p);
    }
  }

  ghost predicate AddedPointwise(m: map<Pubkey, u64>, n: map<Pubkey, u64>, r: map<Pubkey, u64>) {
    forall a ::
      && (a in r <==> a in m || a in n)
      && (a in r ==> r[a] == Held(m, a) + Held(n, a))
  }

  lemma AccountsExtended(payouts: seq<Payout>, p: Payout, m: map<Pubkey, u64>, r: map<Pubkey, u64>)
    requires AccountsAdded(payouts, IdOf()(p), m) && AddedPointwise(m, p.stakeAccounts, r)
    ensures AccountsAdded(payouts + [p], IdOf()(p), r)
  {
    var id := IdOf()(p);
    forall a
      ensures a in r <==> HasAccount(payouts + [p], id, a)
      ensures a in r ==> r[a] == KeySum(IdOf(), StakeIn(a), id, payouts + [p])
    {
      HasAccountSnoc(payouts, p, id, a);
      KeySumSnoc(IdOf(), StakeIn(a), id, payouts, p);
      if a !in m {
        NoAccountNoStake(payouts, id, a);
      }
    }
  }

  lemma {:induction false} NoAccountNoStake(payouts: seq<Payout>, id: ClaimId, a: Pubkey)
    requires !HasAccount(payouts, id, a)
    ensures KeySum(IdOf(), StakeIn(a), id, payouts) == 0
  {
    if payouts != [] {
      assert payouts[0] in payouts;
      NoAccountNoStake(payouts[1..], id, a);
    }
  }

  /** No claim, no stake and no stake account of a vote account exceeds what is checked for it. */
  lemma ClaimBounds(payouts: seq<Payout>, id: ClaimId)
    requires forall p :: p in payouts ==> ValidPayout(p)
    ensures 0 <= KeySum(IdOf(), Lamports(), id, payouts) <= KeySum(VoteOf(), Lamports(), id.voteAccount, payouts)
    ensures 0 <= KeySum(IdOf(), Stake(), id, payouts)
    ensures forall a :: 0 <= KeySum(IdOf(), StakeIn(a), id, payouts) <= KeySum(IdOf(), Stake(), id, payouts)
  {
    KeySumBounds(IdOf(), Lamports(), id, payouts);
    KeySumBounds(IdOf(), Stake(), id, payouts);
    KeySumLe(IdOf(), Lamports(), id, VoteOf(), Lamports(), id.voteAccount, payouts);
    forall a
      ensures 0 <= KeySum(IdOf(), StakeIn(a), id, payouts) <= KeySum(IdOf(), Stake(), id, payouts)
    {
      KeySumBounds(IdOf(), StakeIn(a), id, payouts);
      forall p | p in payouts
        ensures StakeIn(a)(p) <= Stake()(p)
      {
        if a in p.stakeAccounts {
          SumValuesBound(p.stakeAccounts, a);
        }
      }
      KeySumLe(IdOf(), StakeIn(a), id, IdOf(), Stake(), id, payouts);
    }
  }

  /** The loop over a payout's stake accounts, walked in any order. */
  method MergeAccounts(existing: map<Pubkey, u64>, added: map<Pubkey, u64>) returns (r: map<Pubkey, u64>)
    requires forall a :: a in existing && a in added ==> existing[a] + added[a] <= U64_MAX
    ensures AddedPointwise(existing, added, r)
  {
    r := existing;
    var rest := added.Keys;
    while rest != {}
      invariant rest <= added.Keys
      invariant forall a :: a in r <==> a in existing || (a in added && a !in rest)
      invariant forall a :: a in r ==>
                  r[a] == Held(existing, a) + if a in rest then 0 else Held(added, a)
      decreases rest
    {
      var k :| k in rest;
      r := r[k := (if k in r then r[k] else 0) + added[k]];
      rest := rest - {k};
    }
  }

  /** An existing claim with the payout's lamports and stake added; None is the panic of the stake addition. */
  method ExtendClaim(ghost payouts: seq<Payout>, claim: SettlementClaim, payout: Payout)
    returns (r: Option<SettlementClaim>)
    requires IsClaimFor(payouts, IdOf()(payout), claim)
    requires forall p :: p in payouts + [payout] ==> ValidPayout(p)
    requires KeySum(VoteOf(), Lamports(), payout.voteAccount, payouts + [payout]) <= U64_MAX
    ensures r.None? <==> KeySum(IdOf(), Stake(), IdOf()(payout), payouts + [payout]) > U64_MAX
    ensures r.Some? ==> IsClaimFor(payouts + [payout], IdOf()(payout), r.value)
  {
    ghost var id := IdOf()(payout);
    ghost var longer := payouts + [payout];
    ClaimBounds(longer, id);
    KeySumSnoc(IdOf(), Lamports(), id, payouts, payout);
    KeySumSnoc(IdOf(), Stake(), id, payouts, payout);
    HasKeySnoc(IdOf(), id, payouts, payout);
    var detail := claim.detail;
    if claim.detail.StakerPayout? {
      if claim.detail.activeStake + payout.stakeAmount > U64_MAX {
        return None;
      }
      forall a | a in claim.detail.stakeAccounts && a in payout.stakeAccounts
        ensures claim.detail.stakeAccounts[a] + payout.stakeAccounts[a] <= U64_MAX
      {
        KeySumSnoc(IdOf(), StakeIn(a), id, payouts, payout);
      }
      var accounts := MergeAccounts(claim.detail.stakeAccounts, payout.stakeAccounts);
      AccountsExtended(payouts, payout, claim.detail.stakeAccounts, accounts);
      detail := StakerPayout(claim.detail.activeStake + payout.stakeAmount, claim.detail.activatingStake, accounts);
    } else {
      FeesHaveNoStake(longer, id);
    }
    r := Some(claim.(claimAmount := claim.claimAmount + payout.payoutLamports, detail := detail));
  }

  lemma {:induction false} FeesHaveNoStake(payouts: seq<Payout>, id: ClaimId)
    requires forall p :: p in payouts ==> ValidPayout(p)
    requires !id.isStaker
    ensures KeySum(IdOf(), Stake(), id, payouts) == 0
  {
    if payouts != [] {
      assert payouts[0] in payouts;
      FeesHaveNoStake(payouts[1..], id);
    }
  }

  /** The claim that a payout with a new id starts. */
  function NewClaim(payout: Payout): SettlementClaim {
    SettlementClaim(payout.withdrawer, payout.staker, payout.payoutLamports,
                    if payout.kind.Staker? then StakerPayout(payout.stakeAmount, 0, payout.stakeAccounts)
                       else FeeDeposit)
  }

  lemma NewClaimIsClaim(payouts: seq<Payout>, payout: Payout)
    requires !HasKey(IdOf(), IdOf()(payout), payouts)
    ensures IsClaimFor(payouts + [payout], IdOf()(payout), NewClaim(payout))
    ensures KeySum(IdOf(), Stake(), IdOf()(payout), payouts + [payout]) == payout.stakeAmount
  {
    var id := IdOf()(payout);
    KeySumAbsent(IdOf(), Lamports(), id, payouts);
    KeySumAbsent(IdOf(), Stake(), id, payouts);
    KeySumSnoc(IdOf(), Lamports(), id, payouts, payout);
    KeySumSnoc(IdOf(), Stake(), id, payouts, payout);
    HasKeySnoc(IdOf(), id, payouts, payout);
    AccountsExtended(payouts, payout, map[], payout.stakeAccounts);
  }

  /** Position of the claim with `id`, as `find` searches for it. */
  method FindClaim(v: Pubkey, claims: seq<SettlementClaim>, id: ClaimId) returns (r: Option<nat>)
    ensures r.None? <==> !HasClaim(v, claims, id)
    ensures r.Some? ==> r.value < |claims| && ClaimIdOf(v, claims[r.value]) == id
  {
    for i := 0 to |claims|
      invariant forall j :: 0 <= j < i ==> ClaimIdOf(v, claims[j]) != id
    {
      if ClaimIdOf(v, claims[i]) == id {
        return Some(i);
      }
    }
    r := None;
  }

  /** Replacing the claim at `i` by its extension keeps the claims of `v` complete. */
  lemma ClaimsReplaced(payouts: seq<Payout>, p: Payout, claims: seq<SettlementClaim>, i: nat, c: SettlementClaim)
    requires AreClaims(payouts, p.voteAccount, claims) && i < |claims|
    requires ClaimIdOf(p.voteAccount, claims[i]) == IdOf()(p) && IsClaimFor(payouts + [p], IdOf()(p), c)
    ensures AreClaims(payouts + [p], p.voteAccount, claims[i := c])
  {
    var v := p.voteAccount;
    var claims' := claims[i := c];
    forall j | 0 <= j < |claims|
      ensures ClaimIdOf(v, claims'[j]) == ClaimIdOf(v, claims[j])
      ensures IsClaimFor(payouts + [p], ClaimIdOf(v, claims'[j]), claims'[j])
    {
      if j != i {
        assert ClaimIdOf(v, claims[j]) != ClaimIdOf(v, claims[i]);
        ClaimUntouched(payouts, p, ClaimIdOf(v, claims[j]), claims[j]);
      }
    }
    forall q | q in payouts + [p] && q.voteAccount == v
      ensures HasClaim(v, claims', IdOf()(q))
    {
      if q in payouts {
        var j :| 0 <= j < |claims| && ClaimIdOf(v, claims[j]) == IdOf()(q);
        assert ClaimIdOf(v, claims'[j]) == IdOf()(q);
      } else {
        assert ClaimIdOf(v, claims'[i]) == IdOf()(q);
      }
    }
    assert forall j, k :: 0 <= j < k < |claims| ==> StakerFirst()(claims[j], claims[k]);
  }

  lemma ClaimsAppended(payouts: seq<Payout>, p: Payout, claims: seq<SettlementClaim>, c: SettlementClaim)
    requires AreClaims(payouts, p.voteAccount, claims) && !HasClaim(p.voteAccount, claims, IdOf()(p))
    requires IsClaimFor(payouts + [p], IdOf()(p), c)
    requires p.kind.Staker? ==> forall q :: q in payouts ==> q.kind.Staker?
    ensures AreClaims(payouts + [p], p.voteAccount, claims + [c])
  {
    var v := p.voteAccount;
    var claims' := claims + [c];
    forall j | 0 <= j < |claims|
      ensures IsClaimFor(payouts + [p], ClaimIdOf(v, claims[j]), claims[j])
      ensures ClaimIdOf(v, claims[j]) != ClaimIdOf(v, c)
      ensures p.kind.Staker? ==> claims[j].detail.StakerPayout?
    {
      ClaimUntouched(payouts, p, ClaimIdOf(v, claims[j]), claims[j]);
      var q :| q in payouts && IdOf()(q) == ClaimIdOf(v, claims[j]);
    }
    forall q | q in payouts + [p] && q.voteAccount == v
      ensures HasClaim(v, claims', IdOf()(q))
    {
      if q in payouts {
        var j :| 0 <= j < |claims| && ClaimIdOf(v, claims[j]) == IdOf()(q);
        assert claims'[j] == claims[j];
      } else {
        assert claims'[|claims|] == c;
      }
    }
  }

  /** Merging one payout into the claims of its vote account, in place or behind them. */
  method AddToClaims(ghost payouts: seq<Payout>, claims: seq<SettlementClaim>, payout: Payout)
    returns (r: Option<seq<SettlementClaim>>)
    requires AreClaims(payouts, payout.voteAccount, claims)
    requires forall p :: p in payouts + [payout] ==> ValidPayout(p)
    requires KeySum(VoteOf(), Lamports(), payout.voteAccount, payouts + [payout]) <= U64_MAX
    requires payout.kind.Staker? ==> forall q :: q in payouts ==> q.kind.Staker?
    ensures r.None? <==> KeySum(IdOf(), Stake(), IdOf()(payout), payouts + [payout]) > U64_MAX
    ensures r.Some? ==> AreClaims(payouts + [payout], payout.voteAccount, r.value)
  {
    var id := IdOf()(payout);
    var found := FindClaim(payout.voteAccount, claims, id);
    if found.Some? {
      var claim := ExtendClaim(payouts, claims[found.value], payout);
      if claim.None? {
        return None;
      }
      ClaimsReplaced(payouts, payout, claims, found.value, claim.value);
      r := Some(claims[found.value := claim.value]);
    } else {
      NewClaimIsClaim(payouts, payout);
      ClaimsAppended(payouts, payout, claims, NewClaim(payout));
      r := Some(claims + [NewClaim(payout)]);
    }
  }

  lemma OtherVoteUntouched(config: Config, payouts: seq<Payout>, p: Payout, v: Pubkey, st: Settlement)
    requires SettledFor(config, payouts, v, st) && p.voteAccount != v
    ensures SettledFor(config, payouts + [p], v, st)
  {
    KeySumSnoc(VoteOf(), Lamports(), v, payouts, p);
    forall i | 0 <= i < |st.claims|
      ensures IsClaimFor(payouts + [p], ClaimIdOf(v, st.claims[i]), st.claims[i])
    {
      ClaimUntouched(payouts, p, ClaimIdOf(v, st.claims[i]), st.claims[i]);
    }
    assert forall q :: q in payouts + [p] ==> q in payouts || q == p;
  }

  lemma SettledExtended(config: Config, payouts: seq<Payout>, p: Payout, settlements: map<Pubkey, Settlement>,
                        st: Settlement)
    requires Settled(config, payouts, settlements) && SettledFor(config, payouts + [p], p.voteAccount, st)
    ensures Settled(config, payouts + [p], settlements[p.voteAccount := st])
  {
    forall v
      ensures HasKey(VoteOf(), v, payouts + [p]) <==> HasKey(VoteOf(), v, payouts) || v == p.voteAccount
    {
      HasKeySnoc(VoteOf(), v, payouts, p);
    }
    forall v | v in settlements && v != p.voteAccount
      ensures SettledFor(config, payouts + [p], v, settlements[v])
    {
      OtherVoteUntouched(config, payouts, p, v, settlements[v]);
    }
    UpdatedFits((v: Pubkey, st: Settlement) => SettledFor(config, payouts + [p], v, st), settlements, p.voteAccount, st,
                settlements[p.voteAccount := st]);
  }

  lemma UpdatedFits(fits: (Pubkey, Settlement) -> bool, settlements: map<Pubkey, Settlement>, vote: Pubkey,
                    st: Settlement, updated: map<Pubkey, Settlement>)
    requires fits(vote, st) && forall v :: v in settlements && v != vote ==> fits(v, settlements[v])
    requires updated == settlements[vote := st]
    ensures forall v :: v in updated ==> fits(v, updated[v])
  {
  }

  /** No sum that the loop checks exceeds 64 bits. */
  ghost predicate SumsFit(payouts: seq<Payout>) {
    && (forall v :: KeySum(VoteOf(), Lamports(), v, payouts) <= U64_MAX)
    && (forall id :: KeySum(IdOf(), Stake(), id, payouts) <= U64_MAX)
  }

  /** One iteration of the loop over payouts. */
  method AddPayout(config: Config, ghost payouts: seq<Payout>, settlements: map<Pubkey, Settlement>, payout: Payout)
    returns (r: Option<map<Pubkey, Settlement>>)
    requires Settled(config, payouts, settlements) && SumsFit(payouts)
    requires forall p :: p in payouts + [payout] ==> ValidPayout(p)
    requires payout.kind.Staker? ==> forall q :: q in payouts ==> q.kind.Staker?
    ensures r.Some? <==> SumsFit(payouts + [payout])
    ensures r.Some? ==> Settled(config, payouts + [payout], r.value)
  {
    var v := payout.voteAccount;
    var settlement := if v in settlements then settlements[v] else Settlement(config.funder, v, 0, 0, []);
    if v !in settlements {
      NothingYet(config, payouts, v);
    }
    KeySumSnoc(VoteOf(), Lamports(), v, payouts, payout);
    if settlement.claimsAmount + payout.payoutLamports > U64_MAX {
      return None;
    }
    var claims := AddToClaims(payouts, settlement.claims, payout);
    if claims.None? {
      return None;
    }
    settlement := settlement.(claimsAmount := settlement.claimsAmount + payout.payoutLamports, claims := claims.value);
    SettledExtended(config, payouts, payout, settlements, settlement);
    SumsStillFit(payouts, payout);
    r := Some(settlements[v := settlement]);
  }

  lemma NothingYet(config: Config, payouts: seq<Payout>, v: Pubkey)
    requires !HasKey(VoteOf(), v, payouts)
    ensures SettledFor(config, payouts, v, Settlement(config.funder, v, 0, 0, []))
  {
    KeySumAbsent(VoteOf(), Lamports(), v, payouts);
    forall p | p in payouts
      ensures VoteOf()(p) != v
    {
    }
  }

  lemma SumsStillFit(payouts: seq<Payout>, p: Payout)
    requires SumsFit(payouts)
    requires KeySum(VoteOf(), Lamports(), p.voteAccount, payouts + [p]) <= U64_MAX
    requires KeySum(IdOf(), Stake(), IdOf()(p), payouts + [p]) <= U64_MAX
    ensures SumsFit(payouts + [p])
  {
    forall v
      ensures KeySum(VoteOf(), Lamports(), v, payouts + [p]) <= U64_MAX
    {
      KeySumSnoc(VoteOf(), Lamports(), v, payouts, p);
    }
    forall id
      ensures KeySum(IdOf(), Stake(), id, payouts + [p]) <= U64_MAX
    {
      KeySumSnoc(IdOf(), Stake(), id, payouts, p);
    }
  }

  lemma SumsFitPrefix(payouts: seq<Payout>, more: seq<Payout>)
    requires SumsFit(payouts + more)
    ensures SumsFit(payouts)
  {
    forall v
      ensures KeySum(VoteOf(), Lamports(), v, payouts) <= U64_MAX
    {
      KeySumConcat(VoteOf(), Lamports(), v, payouts, more);
      KeySumBounds(VoteOf(), Lamports(), v, more);
    }
    forall id
      ensures KeySum(IdOf(), Stake(), id, payouts) <= U64_MAX
    {
      KeySumConcat(IdOf(), Stake(), id, payouts, more);
      KeySumBounds(IdOf(), Stake(), id, more);
    }
  }

  // --------------------------------------------------------------------- the output

  /** Claim order with its ties settled: equal (withdraw, stake, amount) only occurs between a staker payout and a
      fee, and the stable sort keeps the staker payout first. */
  function ClaimOrder(): (SettlementClaim, SettlementClaim) -> bool {
    (a: SettlementClaim, b: SettlementClaim) => Before(ClaimLe(), StakerFirst(), a, b)
  }

  function VoteLe(): (Settlement, Settlement) -> bool {
    (a: Settlement, b: Settlement) => LexLe(a.voteAccount, b.voteAccount)
  }

  /** `st` is the settlement that `payouts` require for vote account `v`. */
  ghost predicate IsSettlementFor(config: Config, payouts: seq<Payout>, v: Pubkey, st: Settlement) {
    && st.funder == config.funder && st.voteAccount == v && st.claimsCount == |st.claims|
    && st.claimsAmount == KeySum(VoteOf(), Lamports(), v, payouts)
    && StrictlySorted(ClaimOrder(), st.claims)
    && (forall c :: c in st.claims ==> IsClaimFor(payouts, ClaimIdOf(v, c), c))
    && (forall p :: p in payouts && p.voteAccount == v ==> HasClaim(v, st.claims, IdOf()(p)))
  }

  ghost function SettlementTest(config: Config, payouts: seq<Payout>): (Pubkey, Settlement) -> bool {
    (v, st) => HasKey(VoteOf(), v, payouts) && IsSettlementFor(config, payouts, v, st)
  }

  /** `sts` holds one settlement, which `fits`, for each vote account with a payout, by vote account. */
  ghost predicate OnePerVote(fits: (Pubkey, Settlement) -> bool, payouts: seq<Payout>, sts: seq<Settlement>) {
    && StrictlySorted(VoteLe(), sts)
    && (forall st :: st in sts ==> fits(st.voteAccount, st))
    && (forall p :: p in payouts ==> exists st :: st in sts && st.voteAccount == p.voteAccount)
  }

  ghost predicate IsOutput(config: Config, payouts: seq<Payout>, sts: seq<Settlement>) {
    OnePerVote(SettlementTest(config, payouts), payouts, sts)
  }

  lemma ClaimTieIsSameId(v: Pubkey, a: SettlementClaim, b: SettlementClaim)
    requires ClaimOrder()(a, b) && ClaimOrder()(b, a)
    ensures ClaimIdOf(v, a) == ClaimIdOf(v, b)
  {
    KeyAmountLeAntisymmetric(KeyOf(a), a.claimAmount, KeyOf(b), b.claimAmount);
  }

  /** Sorting the claims of a vote account is strict. */
  lemma ClaimSortStrict(payouts: seq<Payout>, v: Pubkey, claims: seq<SettlementClaim>)
    requires AreClaims(payouts, v, claims)
    ensures StrictlySorted(ClaimOrder(), Sort(ClaimLe(), claims))
  {
    ClaimLeTotalPreorder();
    forall a, b | ClaimOrder()(a, b) && ClaimOrder()(b, a)
      ensures ClaimIdOf(v, a) == ClaimIdOf(v, b)
    {
      ClaimTieIsSameId(v, a, b);
    }
    SortStrict(ClaimLe(), StakerFirst(), ClaimOrder(), (c: SettlementClaim) => ClaimIdOf(v, c), claims);
  }

  function Finish(st: Settlement): Settlement {
    var claims := Sort(ClaimLe(), st.claims);
    st.(claims := claims, claimsCount := |claims|)
  }

  lemma FinishedIsSettlement(config: Config, payouts: seq<Payout>, v: Pubkey, st: Settlement)
    requires SettledFor(config, payouts, v, st)
    ensures IsSettlementFor(config, payouts, v, Finish(st))
  {
    var sorted := Sort(ClaimLe(), st.claims);
    ClaimSortStrict(payouts, v, st.claims);
    SortElements(ClaimLe(), st.claims);
    forall c | c in sorted
      ensures IsClaimFor(payouts, ClaimIdOf(v, c), c)
    {
      var i :| 0 <= i < |st.claims| && st.claims[i] == c;
    }
    forall p | p in payouts && p.voteAccount == v
      ensures HasClaim(v, sorted, IdOf()(p))
    {
      var i :| 0 <= i < |st.claims| && ClaimIdOf(v, st.claims[i]) == IdOf()(p);
      assert st.claims[i] in sorted;
      var j :| 0 <= j < |sorted| && sorted[j] == st.claims[i];
    }
  }

  lemma VoteLeTotalPreorder()
    ensures TotalPreorder(VoteLe())
  {
    forall a, b
      ensures VoteLe()(a, b) || VoteLe()(b, a)
    {
      LexTotal(a.voteAccount, b.voteAccount);
    }
    forall a, b, c | VoteLe()(a, b) && VoteLe()(b, c)
      ensures VoteLe()(a, c)
    {
      LexTransitive(a.voteAccount, b.voteAccount, c.voteAccount);
    }
  }

  ghost predicate DistinctVotes(sts: seq<Settlement>) {
    forall i, j :: 0 <= i < j < |sts| ==> sts[i].voteAccount != sts[j].voteAccount
  }

  lemma VoteSortStrict(sts: seq<Settlement>)
    requires DistinctVotes(sts)
    ensures StrictlySorted(VoteLe(), Sort(VoteLe(), sts))
  {
    VoteLeTotalPreorder();
    forall a, b | VoteLe()(a, b) && VoteLe()(b, a)
      ensures a.voteAccount == b.voteAccount
    {
      LexAntisymmetric(a.voteAccount, b.voteAccount);
    }
    SortStrict(VoteLe(), (a, b) => true, VoteLe(), (st: Settlement) => st.voteAccount, sts);
  }

  /** `values` holds each settlement of the map once, finished. */
  ghost predicate Finished(settlements: map<Pubkey, Settlement>, values: seq<Settlement>) {
    && DistinctVotes(values)
    && (forall i :: 0 <= i < |values| ==>
          values[i].voteAccount in settlements && values[i] == Finish(settlements[values[i].voteAccount]))
    && (forall v :: v in settlements ==> Finish(settlements[v]) in values)
  }

  /** `into_values()` in any order, each settlement finished. */
  method FinishValues(settlements: map<Pubkey, Settlement>) returns (values: seq<Settlement>)
    requires forall v :: v in settlements ==> settlements[v].voteAccount == v
    ensures Finished(settlements, values)
  {
    values := [];
    var rest := settlements.Keys;
    while rest != {}
      invariant rest <= settlements.Keys
      invariant DistinctVotes(values)
      invariant forall i :: 0 <= i < |values| ==>
                  && values[i].voteAccount in settlements && values[i].voteAccount !in rest
                  && values[i] == Finish(settlements[values[i].voteAccount])
      invariant forall v :: v in settlements && v !in rest ==> Finish(settlements[v]) in values
      decreases rest
    {
      var v :| v in rest;
      ghost var before := values;
      values := values + [Finish(settlements[v])];
      rest := rest - {v};
      assert values[|before|] == Finish(settlements[v]) && forall x :: x in before ==> x in values;
    }
  }

  lemma FinishedValue(config: Config, payouts: seq<Payout>, settlements: map<Pubkey, Settlement>, v: Pubkey)
    requires Settled(config, payouts, settlements) && v in settlements
    ensures SettlementTest(config, payouts)(v, Finish(settlements[v]))
  {
    FinishedIsSettlement(config, payouts, v, settlements[v]);
  }

  lemma SortedOnePerVote(fits: (Pubkey, Settlement) -> bool, payouts: seq<Payout>, settlements: map<Pubkey, Settlement>,
                         values: seq<Settlement>)
    requires Finished(settlements, values)
    requires forall v :: v in settlements ==> settlements[v].voteAccount == v && fits(v, Finish(settlements[v]))
    requires forall p :: p in payouts ==> p.voteAccount in settlements
    ensures OnePerVote(fits, payouts, Sort(VoteLe(), values))
  {
    VoteSortStrict(values);
    SortElements(VoteLe(), values);
    forall p | p in payouts
      ensures exists st :: st in Sort(VoteLe(), values) && st.voteAccount == p.voteAccount
    {
      assert Finish(settlements[p.voteAccount]) in Sort(VoteLe(), values);
    }
  }

  lemma FinishedIsOutput(config: Config, payouts: seq<Payout>, settlements: map<Pubkey, Settlement>,
                         values: seq<Settlement>)
    requires Settled(config, payouts, settlements) && Finished(settlements, values)
    ensures IsOutput(config, payouts, Sort(VoteLe(), values))
  {
    forall v | v in settlements
      ensures settlements[v].voteAccount == v && SettlementTest(config, payouts)(v, Finish(settlements[v]))
    {
      FinishedValue(config, payouts, settlements, v);
    }
    forall p | p in payouts
      ensures VoteOf()(p) in settlements
    {
    }
    SortedOnePerVote(SettlementTest(config, payouts), payouts, settlements, values);
  }

  lemma StakerPayoutValid(ps: PayoutStaker)
    requires StakeMatches(ps)
    ensures ValidPayout(StakerPayoutOf()(ps))
  {
  }

  lemma PayoutsValid(config: Config, stakers: seq<PayoutStaker>, distributors: seq<PayoutDistributor>)
    requires forall ps :: ps in stakers ==> StakeMatches(ps)
    ensures forall p :: p in Payouts(config, stakers, distributors) ==> ValidPayout(p)
    ensures var payouts := Payouts(config, stakers, distributors);
            forall i, j :: 0 <= i < j < |payouts| && payouts[j].kind.Staker? ==> payouts[i].kind.Staker?
  {
    var fees := FlatMap(FeePayouts(config), distributors);
    forall p | p in fees
      ensures ValidPayout(p) && p.kind.Fee?
    {
      FlatMapMembers(FeePayouts(config), distributors, p);
      var d :| d in distributors && p in FeePayouts(config)(d);
    }
    forall i | 0 <= i < |stakers|
      ensures ValidPayout(StakerPayouts(stakers)[i]) && StakerPayouts(stakers)[i].kind.Staker?
    {
      assert stakers[i] in stakers;
      StakerPayoutValid(stakers[i]);
    }
    var payouts := Payouts(config, stakers, distributors);
    forall j | 0 <= j < |payouts|
      ensures ValidPayout(payouts[j]) && (payouts[j].kind.Staker? <==> j < |stakers|)
    {
      if j < |stakers| {
        assert payouts[j] == StakerPayouts(stakers)[j];
      } else {
        assert payouts[j] == fees[j - |stakers|];
      }
    }
  }
}
