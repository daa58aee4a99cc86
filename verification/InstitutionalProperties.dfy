/** Properties of every generated list of institutional settlements. */
module InstitutionalProperties {
  import opened Wrappers
  import opened Bytes
  import opened Sums
  import opened Sorting
  import opened SettlementCollections
  import opened InstitutionalSettlements

  // ---------------------------------------------------------------- order independence

  lemma AccountsUnique(ps: seq<Payout>, qs: seq<Payout>, id: ClaimId, m: map<Pubkey, u64>, n: map<Pubkey, u64>)
    requires multiset(ps) == multiset(qs) && AccountsAdded(ps, id, m) && AccountsAdded(qs, id, n)
    ensures m == n
  {
    SameMembers(ps, qs);
    forall a
      ensures a in m <==> a in n
      ensures a in m ==> m[a] == n[a]
    {
      KeySumPermutation(IdOf(), StakeIn(a), id, ps, qs);
      assert HasAccount(ps, id, a) <==> HasAccount(qs, id, a);
    }
    assert m.Keys == n.Keys;
  }

  /** A claim is a function of its id and of the payouts as a multiset. */
  lemma ClaimUnique(ps: seq<Payout>, qs: seq<Payout>, id: ClaimId, c: SettlementClaim, d: SettlementClaim)
    requires multiset(ps) == multiset(qs) && IsClaimFor(ps, id, c) && IsClaimFor(qs, id, d)
    ensures c == d
  {
    KeySumPermutation(IdOf(), Lamports(), id, ps, qs);
    KeySumPermutation(IdOf(), Stake(), id, ps, qs);
    if id.isStaker {
      AccountsUnique(ps, qs, id, c.detail.stakeAccounts, d.detail.stakeAccounts);
    }
  }

  lemma ClaimIncluded(config: Config, ps: seq<Payout>, qs: seq<Payout>, v: Pubkey, s: Settlement, t: Settlement,
                      c: SettlementClaim)
    requires multiset(ps) == multiset(qs) && c in s.claims
    requires IsSettlementFor(config, ps, v, s) && IsSettlementFor(config, qs, v, t)
    ensures c in t.claims
  {
    var id := ClaimIdOf(v, c);
    SameMembers(ps, qs);
    var p :| p in ps && IdOf()(p) == id;
    var i :| 0 <= i < |t.claims| && ClaimIdOf(v, t.claims[i]) == id;
    assert t.claims[i] in t.claims;
    ClaimUnique(ps, qs, id, c, t.claims[i]);
  }

  lemma SettlementUnique(config: Config, ps: seq<Payout>, qs: seq<Payout>, v: Pubkey, s: Settlement, t: Settlement)
    requires multiset(ps) == multiset(qs)
    requires IsSettlementFor(config, ps, v, s) && IsSettlementFor(config, qs, v, t)
    ensures s == t
  {
    forall c
      ensures c in s.claims <==> c in t.claims
    {
      if c in s.claims {
        ClaimIncluded(config, ps, qs, v, s, t, c);
      }
      if c in t.claims {
        ClaimIncluded(config, qs, ps, v, t, s, c);
      }
    }
    StrictlySortedUnique(ClaimOrder(), s.claims, t.claims);
    KeySumPermutation(VoteOf(), Lamports(), v, ps, qs);
  }

  lemma SettlementIncluded(config: Config, ps: seq<Payout>, qs: seq<Payout>, ss: seq<Settlement>, ts: seq<Settlement>,
                           s: Settlement)
    requires multiset(ps) == multiset(qs) && IsOutput(config, ps, ss) && IsOutput(config, qs, ts) && s in ss
    ensures s in ts
  {
    assert SettlementTest(config, ps)(s.voteAccount, s);
    var p :| p in ps && VoteOf()(p) == s.voteAccount;
    SameMembers(ps, qs);
    var t :| t in ts && t.voteAccount == p.voteAccount;
    assert SettlementTest(config, qs)(t.voteAccount, t);
    SettlementUnique(config, ps, qs, s.voteAccount, s, t);
  }

  /** Payouts in another order give identical settlements. */
  lemma OutputUnique(config: Config, ps: seq<Payout>, qs: seq<Payout>, ss: seq<Settlement>, ts: seq<Settlement>)
    requires multiset(ps) == multiset(qs) && IsOutput(config, ps, ss) && IsOutput(config, qs, ts)
    ensures ss == ts
  {
    forall s
      ensures s in ss <==> s in ts
    {
      if s in ss {
        SettlementIncluded(config, ps, qs, ss, ts, s);
      }
      if s in ts {
        SettlementIncluded(config, qs, ps, ts, ss, s);
      }
    }
    StrictlySortedUnique(VoteLe(), ss, ts);
  }

  lemma {:induction false} StakerPayoutsAsFlatMap(stakers: seq<PayoutStaker>)
    ensures StakerPayouts(stakers) == FlatMap((ps: PayoutStaker) => [StakerPayoutOf()(ps)], stakers)
  {
    if stakers != [] {
      StakerPayoutsAsFlatMap(stakers[1..]);
      assert StakerPayouts(stakers) == [StakerPayoutOf()(stakers[0])] + StakerPayouts(stakers[1..]);
    }
  }

  lemma PayoutsPermuted(config: Config, stakers: seq<PayoutStaker>, distributors: seq<PayoutDistributor>,
                        stakers': seq<PayoutStaker>, distributors': seq<PayoutDistributor>)
    requires multiset(stakers) == multiset(stakers') && multiset(distributors) == multiset(distributors')
    ensures multiset(Payouts(config, stakers, distributors)) == multiset(Payouts(config, stakers', distributors'))
  {
    StakerPayoutsAsFlatMap(stakers);
    StakerPayoutsAsFlatMap(stakers');
    FlatMapPermutation((ps: PayoutStaker) => [StakerPayoutOf()(ps)], stakers, stakers');
    FlatMapPermutation(FeePayouts(config), distributors, distributors');
  }

  /** Order independence: permuting the stakers or the distributors gives the identical settlements. */
  lemma OrderIndependent(config: Config, stakers: seq<PayoutStaker>, distributors: seq<PayoutDistributor>,
                         ss: seq<Settlement>, stakers': seq<PayoutStaker>, distributors': seq<PayoutDistributor>,
                         ts: seq<Settlement>)
    requires multiset(stakers) == multiset(stakers') && multiset(distributors) == multiset(distributors')
    requires IsOutput(config, Payouts(config, stakers, distributors), ss)
    requires IsOutput(config, Payouts(config, stakers', distributors'), ts)
    ensures ss == ts
  {
    PayoutsPermuted(config, stakers, distributors, stakers', distributors');
    OutputUnique(config, Payouts(config, stakers, distributors), Payouts(config, stakers', distributors'), ss, ts);
  }

  /** Whether generation panics does not depend on the order either. */
  lemma PanicOrderIndependent(config: Config, stakers: seq<PayoutStaker>, distributors: seq<PayoutDistributor>,
                              stakers': seq<PayoutStaker>, distributors': seq<PayoutDistributor>)
    requires multiset(stakers) == multiset(stakers') && multiset(distributors) == multiset(distributors')
    ensures (forall ps :: ps in stakers ==> StakeMatches(ps)) <==> (forall ps :: ps in stakers' ==> StakeMatches(ps))
    ensures SumsFit(Payouts(config, stakers, distributors)) <==> SumsFit(Payouts(config, stakers', distributors'))
  {
    SameMembers(stakers, stakers');
    PayoutsPermuted(config, stakers, distributors, stakers', distributors');
    var ps, qs := Payouts(config, stakers, distributors), Payouts(config, stakers', distributors');
    forall v
      ensures KeySum(VoteOf(), Lamports(), v, ps) == KeySum(VoteOf(), Lamports(), v, qs)
    {
      KeySumPermutation(VoteOf(), Lamports(), v, ps, qs);
    }
    forall id
      ensures KeySum(IdOf(), Stake(), id, ps) == KeySum(IdOf(), Stake(), id, qs)
    {
      KeySumPermutation(IdOf(), Stake(), id, ps, qs);
    }
  }

  // ---------------------------------------------------------------- uniqueness of claims

  /** Claims of a settlement are unique per (withdraw, stake, kind). */
  lemma ClaimsUnique(config: Config, payouts: seq<Payout>, v: Pubkey, st: Settlement, i: nat, j: nat)
    requires IsSettlementFor(config, payouts, v, st) && i < j < |st.claims|
    ensures ClaimIdOf(v, st.claims[i]) != ClaimIdOf(v, st.claims[j])
  {
    var c, d := st.claims[i], st.claims[j];
    assert c in st.claims && d in st.claims;
    assert ClaimOrder()(c, d) && !ClaimOrder()(d, c);
    if ClaimIdOf(v, c) == ClaimIdOf(v, d) {
      ClaimUnique(payouts, payouts, ClaimIdOf(v, c), c, d);
    }
  }

  // --------------------------------------------------------------------- conservation

  function Amount(): SettlementClaim -> int {
    (c: SettlementClaim) => c.claimAmount
  }

  function LamportsOf(v: Pubkey): Payout -> int {
    (p: Payout) => if p.voteAccount == v then p.payoutLamports else 0
  }

  lemma {:induction false} LamportsOfVote(payouts: seq<Payout>, v: Pubkey, id: ClaimId)
    requires id.voteAccount == v
    ensures KeySum(IdOf(), Lamports(), id, payouts) == KeySum(IdOf(), LamportsOf(v), id, payouts)
    ensures KeySum(VoteOf(), Lamports(), v, payouts) == Sum(LamportsOf(v), payouts)
  {
    if payouts != [] {
      LamportsOfVote(payouts[1..], v, id);
    }
  }

  function IdsOf(v: Pubkey, claims: seq<SettlementClaim>): seq<ClaimId> {
    seq(|claims|, i requires 0 <= i < |claims| => ClaimIdOf(v, claims[i]))
  }

  /** The claims of a settlement add up to the amount it states, which is all that was paid out for its vote account. */
  lemma SettlementConserves(config: Config, payouts: seq<Payout>, v: Pubkey, st: Settlement)
    requires IsSettlementFor(config, payouts, v, st)
    ensures Sum(Amount(), st.claims) == st.claimsAmount == KeySum(VoteOf(), Lamports(), v, payouts)
  {
    var ids := IdsOf(v, st.claims);
    forall i, j | 0 <= i < j < |ids|
      ensures ids[i] != ids[j]
    {
      ClaimsUnique(config, payouts, v, st, i, j);
    }
    forall i | 0 <= i < |st.claims|
      ensures st.claims[i].claimAmount == KeySum(IdOf(), LamportsOf(v), ids[i], payouts)
    {
      assert st.claims[i] in st.claims;
      LamportsOfVote(payouts, v, ids[i]);
    }
    SumCongruence(Amount(), st.claims, KeySums(IdOf(), LamportsOf(v), payouts), ids);
    forall p | p in payouts && LamportsOf(v)(p) != 0
      ensures IdOf()(p) in ids
    {
      var i :| 0 <= i < |st.claims| && ClaimIdOf(v, st.claims[i]) == IdOf()(p);
      assert ids[i] == IdOf()(p);
    }
    SumByKey(IdOf(), LamportsOf(v), ids, payouts);
    LamportsOfVote(payouts, v, ClaimId(v, SettlementKey(v, v), true));
  }

  function ClaimsTotal(): Settlement -> int {
    (st: Settlement) => Sum(Amount(), st.claims)
  }

  function VotesOf(sts: seq<Settlement>): seq<Pubkey> {
    seq(|sts|, i requires 0 <= i < |sts| => sts[i].voteAccount)
  }

  lemma OutputVotes(config: Config, payouts: seq<Payout>, sts: seq<Settlement>)
    requires IsOutput(config, payouts, sts)
    ensures NoDuplicates(VotesOf(sts))
    ensures forall p :: p in payouts ==> p.voteAccount in VotesOf(sts)
  {
    forall i, j | 0 <= i < j < |sts|
      ensures VotesOf(sts)[i] != VotesOf(sts)[j]
    {
      assert VoteLe()(sts[i], sts[j]) && !VoteLe()(sts[j], sts[i]);
    }
    forall p | p in payouts
      ensures p.voteAccount in VotesOf(sts)
    {
      var st :| st in sts && st.voteAccount == p.voteAccount;
      var i :| 0 <= i < |sts| && sts[i] == st;
      assert VotesOf(sts)[i] == p.voteAccount;
    }
  }

  lemma MemberConserves(config: Config, payouts: seq<Payout>, sts: seq<Settlement>, st: Settlement)
    requires IsOutput(config, payouts, sts) && st in sts
    ensures ClaimsTotal()(st) == KeySum(VoteOf(), Lamports(), st.voteAccount, payouts)
  {
    assert SettlementTest(config, payouts)(st.voteAccount, st);
    SettlementConserves(config, payouts, st.voteAccount, st);
  }

  /** All claims together are all payouts together. */
  lemma OutputConserves(config: Config, payouts: seq<Payout>, sts: seq<Settlement>)
    requires IsOutput(config, payouts, sts)
    ensures Sum(ClaimsTotal(), sts) == Sum(Lamports(), payouts)
  {
    forall st | st in sts
      ensures ClaimsTotal()(st) == KeySum(VoteOf(), Lamports(), st.voteAccount, payouts)
    {
      MemberConserves(config, payouts, sts, st);
    }
    OutputVotes(config, payouts, sts);
    SumCongruence(ClaimsTotal(), sts, KeySums(VoteOf(), Lamports(), payouts), VotesOf(sts));
    SumByKey(VoteOf(), Lamports(), VotesOf(sts), payouts);
  }

  function StakerLamports(): PayoutStaker -> int {
    (ps: PayoutStaker) => ps.payoutLamports
  }

  function DistributorLamports(): PayoutDistributor -> int {
    (d: PayoutDistributor) => d.payoutLamports
  }

  /** What the fee split pays beyond the distributor's payout: nothing unless the DAO share exceeds it. */
  function Excess(config: Config): PayoutDistributor -> int {
    (d: PayoutDistributor) => Max(DaoPayout(config, d.payoutLamports) - d.payoutLamports, 0)
  }

  lemma {:induction false} FeesTotal(config: Config, distributors: seq<PayoutDistributor>)
    ensures Sum(Lamports(), FlatMap(FeePayouts(config), distributors))
         == Sum(DistributorLamports(), distributors) + Sum(Excess(config), distributors)
  {
    if distributors != [] {
      FeesTotal(config, distributors[1..]);
      var pair := FeePayouts(config)(distributors[0]);
      SumConcat(Lamports(), pair, FlatMap(FeePayouts(config), distributors[1..]));
      assert pair[1..] == [pair[1]];
      assert pair[1..][1..] == [];
    }
  }

  lemma {:induction false} ExcessZero(config: Config, distributors: seq<PayoutDistributor>)
    ensures Sum(Excess(config), distributors) >= 0
    ensures Sum(Excess(config), distributors) == 0
       <==> forall d :: d in distributors ==> DaoPayout(config, d.payoutLamports) <= d.payoutLamports
  {
    if distributors != [] {
      ExcessZero(config, distributors[1..]);
      assert distributors == [distributors[0]] + distributors[1..];
      SumNonNegative(Excess(config), distributors);
    }
  }

  lemma PayoutsTotal(config: Config, stakers: seq<PayoutStaker>, distributors: seq<PayoutDistributor>)
    ensures Sum(Lamports(), Payouts(config, stakers, distributors))
         == Sum(StakerLamports(), stakers) + Sum(DistributorLamports(), distributors)
         + Sum(Excess(config), distributors)
  {
    SumConcat(Lamports(), StakerPayouts(stakers), FlatMap(FeePayouts(config), distributors));
    forall i | 0 <= i < |stakers|
      ensures Lamports()(StakerPayouts(stakers)[i]) == StakerLamports()(stakers[i])
    {
      assert StakerPayouts(stakers)[i] == StakerPayoutOf()(stakers[i]);
    }
    SumCongruence(Lamports(), StakerPayouts(stakers), StakerLamports(), stakers);
    FeesTotal(config, distributors);
  }

  /** Conservation, end to end: the claims total exactly what was to be paid out if and only if for every
      distributor the DAO share does not exceed the payout it is taken from. */
  lemma Conservation(config: Config, stakers: seq<PayoutStaker>, distributors: seq<PayoutDistributor>,
                     sts: seq<Settlement>)
    requires IsOutput(config, Payouts(config, stakers, distributors), sts)
    ensures Sum(ClaimsTotal(), sts) >= Sum(StakerLamports(), stakers) + Sum(DistributorLamports(), distributors)
    ensures Sum(ClaimsTotal(), sts) == Sum(StakerLamports(), stakers) + Sum(DistributorLamports(), distributors)
       <==> forall d :: d in distributors ==> DaoPayout(config, d.payoutLamports) <= d.payoutLamports
  {
    OutputConserves(config, Payouts(config, stakers, distributors), sts);
    PayoutsTotal(config, stakers, distributors);
    ExcessZero(config, distributors);
  }

  lemma MulMonotone(a: nat, b: nat, c: nat)
    requires b <= c
    ensures a * b <= a * c
  {
    assert a * (c - b) >= 0;
  }

  /** A share of at most 10000 bps never exceeds the payout, even where the multiplication saturates. */
  lemma ShareWithinPayout(config: Config, lamports: u64)
    requires config.daoFeeSplitShareBps <= 10_000
    ensures DaoPayout(config, lamports) <= lamports
  {
    MulMonotone(lamports, config.daoFeeSplitShareBps, 10_000);
    var product := SatMul(lamports, config.daoFeeSplitShareBps);
    assert product <= lamports * 10_000;
    assert product / 10_000 <= lamports;
  }

  /** Above 10000 bps it can, and then lamports come out of nothing: a share of 20000 bps of one lamport is two. */
  lemma ShareBeyondPayout(config: Config, vote: Pubkey, sts: seq<Settlement>)
    requires config.daoFeeSplitShareBps == 20_000
    requires IsOutput(config, Payouts(config, [], [PayoutDistributor(vote, 1)]), sts)
    ensures DaoPayout(config, 1) == 2
    ensures Sum(ClaimsTotal(), sts) > Sum(DistributorLamports(), [PayoutDistributor(vote, 1)]) == 1
  {
    var d := PayoutDistributor(vote, 1);
    Conservation(config, [], [d], sts);
    assert d in [d];
    assert [d][1..] == [];
  }

  // -------------------------------------------------------------------- active stake

  /** `r` before the entry of `k` was added to it. */
  function BeforeAdding(m: map<Pubkey, u64>, r: map<Pubkey, u64>, k: Pubkey): map<Pubkey, u64> {
    if k in m then r[k := m[k]] else r - {k}
  }

  lemma AddedWithout(m: map<Pubkey, u64>, n: map<Pubkey, u64>, r: map<Pubkey, u64>, k: Pubkey)
    requires AddedPointwise(m, n, r) && k in n
    ensures AddedPointwise(m, n - {k}, BeforeAdding(m, r, k))
    ensures BeforeAdding(m, r, k)[k := r[k]] == r
    ensures r[k] == Held(m, k) + n[k]
    ensures Held(BeforeAdding(m, r, k), k) == Held(m, k)
  {
    assert BeforeAdding(m, r, k)[k := r[k]].Keys == r.Keys;
  }

  lemma {:induction false} SumValuesAdded(m: map<Pubkey, u64>, n: map<Pubkey, u64>, r: map<Pubkey, u64>)
    requires AddedPointwise(m, n, r)
    ensures SumValues(r) == SumValues(m) + SumValues(n)
    decreases |n|
  {
    if n == map[] {
      assert r.Keys == m.Keys;
      assert r == m;
    } else {
      var k :| k in n;
      assert (n - {k}).Keys == n.Keys - {k};
      SumValuesPick(n, k);
      AddedWithout(m, n, r, k);
      SumValuesAdded(m, n - {k}, BeforeAdding(m, r, k));
      SumValuesInsert(BeforeAdding(m, r, k), k, r[k]);
    }
  }

  lemma NoPayoutsNoStake(id: ClaimId, m: map<Pubkey, u64>)
    requires AccountsAdded([], id, m)
    ensures SumValues(m) == 0
  {
    assert m.Keys == {};
  }

  /** Undoing the last payout changes the accounts' sum by that payout's stake, if it is of this id. */
  lemma AccountsStep(front: seq<Payout>, p: Payout, id: ClaimId, m: map<Pubkey, u64>) returns (m': map<Pubkey, u64>)
    requires AccountsAdded(front + [p], id, m) && ValidPayout(p)
    ensures AccountsAdded(front, id, m')
    ensures SumValues(m) == SumValues(m') + if IdOf()(p) == id then p.stakeAmount else 0
  {
    if IdOf()(p) == id {
      m' := AccountsBefore(front, p, m);
      SumValuesAdded(m', p.stakeAccounts, m);
    } else {
      AccountsUntouched(front, p, id, m);
      m' := m;
    }
  }

  lemma {:induction false} AccountsTotal(payouts: seq<Payout>, id: ClaimId, m: map<Pubkey, u64>)
    requires forall p :: p in payouts ==> ValidPayout(p)
    requires AccountsAdded(payouts, id, m)
    ensures SumValues(m) == KeySum(IdOf(), Stake(), id, payouts)
  {
    if payouts == [] {
      NoPayoutsNoStake(id, m);
    } else {
      var front, p := payouts[..|payouts| - 1], payouts[|payouts| - 1];
      assert payouts == front + [p];
      assert p in payouts && forall q :: q in front ==> q in payouts;
      KeySumSnoc(IdOf(), Stake(), id, front, p);
      var m' := AccountsStep(front, p, id, m);
      AccountsTotal(front, id, m');
    }
  }

  lemma AccountBefore(front: seq<Payout>, p: Payout, id: ClaimId, a: Pubkey)
    ensures HasAccount(front + [p], id, a) <==> HasAccount(front, id, a) || (IdOf()(p) == id && a in p.stakeAccounts)
    ensures KeySum(IdOf(), StakeIn(a), id, front + [p])
         == KeySum(IdOf(), StakeIn(a), id, front) + if IdOf()(p) == id then Held(p.stakeAccounts, a) else 0
    ensures 0 <= KeySum(IdOf(), StakeIn(a), id, front) <= KeySum(IdOf(), StakeIn(a), id, front + [p])
    ensures !HasAccount(front, id, a) ==> KeySum(IdOf(), StakeIn(a), id, front) == 0
  {
    HasAccountSnoc(front, p, id, a);
    KeySumSnoc(IdOf(), StakeIn(a), id, front, p);
    KeySumBounds(IdOf(), StakeIn(a), id, front);
    if !HasAccount(front, id, a) {
      NoAccountNoStake(front, id, a);
    }
  }

  lemma AccountsUntouched(front: seq<Payout>, p: Payout, id: ClaimId, m: map<Pubkey, u64>)
    requires AccountsAdded(front + [p], id, m) && IdOf()(p) != id
    ensures AccountsAdded(front, id, m)
  {
    forall a
      ensures a in m <==> HasAccount(front, id, a)
      ensures a in m ==> m[a] == KeySum(IdOf(), StakeIn(a), id, front)
    {
      AccountBefore(front, p, id, a);
    }
  }

  /** The accounts before the last payout was added. */
  lemma AccountsBefore(front: seq<Payout>, p: Payout, m: map<Pubkey, u64>) returns (m': map<Pubkey, u64>)
    requires AccountsAdded(front + [p], IdOf()(p), m)
    ensures AccountsAdded(front, IdOf()(p), m')
    ensures AddedPointwise(m', p.stakeAccounts, m)
  {
    var id := IdOf()(p);
    forall a | a in m
      ensures 0 <= m[a] - Held(p.stakeAccounts, a) <= U64_MAX
    {
      AccountBefore(front, p, id, a);
    }
    m' := map a | a in m && HasAccount(front, id, a) :: m[a] - Held(p.stakeAccounts, a);
    forall a
      ensures a in m' <==> HasAccount(front, id, a)
      ensures a in m' ==> m'[a] == KeySum(IdOf(), StakeIn(a), id, front)
    {
      AccountBefore(front, p, id, a);
    }
    forall a
      ensures a in m <==> a in m' || a in p.stakeAccounts
      ensures a in m ==> m[a] == Held(m', a) + Held(p.stakeAccounts, a)
    {
      AccountBefore(front, p, id, a);
    }
  }

  /** The active stake of a staker's claim is the sum of the stake accounts it lists. */
  lemma ActiveStakeIsSumOfAccounts(config: Config, stakers: seq<PayoutStaker>, distributors: seq<PayoutDistributor>,
                                   sts: seq<Settlement>, st: Settlement, c: SettlementClaim)
    requires forall ps :: ps in stakers ==> StakeMatches(ps)
    requires IsOutput(config, Payouts(config, stakers, distributors), sts)
    requires st in sts && c in st.claims && c.detail.StakerPayout?
    ensures c.detail.activeStake == SumValues(c.detail.stakeAccounts)
    ensures c.detail.activatingStake == 0
  {
    var payouts := Payouts(config, stakers, distributors);
    PayoutsValid(config, stakers, distributors);
    assert SettlementTest(config, payouts)(st.voteAccount, st);
    var id := ClaimIdOf(st.voteAccount, c);
    AccountsTotal(payouts, id, c.detail.stakeAccounts);
  }
}
