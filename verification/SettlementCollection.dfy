/** The settlements exchanged between the generators, and the orders their output is sorted by. */
module SettlementCollections {
  import opened Wrappers
  import opened Bytes
  import opened Sorting
  import opened Sums

  datatype ClaimDetail =
    | StakerPayout(activeStake: u64, activatingStake: u64, stakeAccounts: map<Pubkey, u64>)
    | FeeDeposit
    | Marker

  datatype SettlementClaim = SettlementClaim(
    withdrawAuthority: Pubkey,
    stakeAuthority: Pubkey,
    claimAmount: u64,
    detail: ClaimDetail)

  datatype SettlementKey = SettlementKey(withdrawAuthority: Pubkey, stakeAuthority: Pubkey)

  datatype SettlementFunder = ValidatorBond | Marinade

  datatype Settlement = Settlement(
    funder: SettlementFunder,
    voteAccount: Pubkey,
    claimsCount: nat,
    claimsAmount: u64,
    claims: seq<SettlementClaim>)

  datatype SettlementCollection = SettlementCollection(slot: u64, epoch: u64, settlements: seq<Settlement>)

  function KeyOf(claim: SettlementClaim): SettlementKey {
    SettlementKey(claim.withdrawAuthority, claim.stakeAuthority)
  }

  /** The order of the tuple (withdraw authority, stake authority, amount). */
  predicate KeyAmountLe(k: SettlementKey, a: int, l: SettlementKey, b: int) {
    if k.withdrawAuthority != l.withdrawAuthority then LexLe(k.withdrawAuthority, l.withdrawAuthority)
    else if k.stakeAuthority != l.stakeAuthority then LexLe(k.stakeAuthority, l.stakeAuthority)
    else a <= b
  }

  lemma KeyAmountLeTotal(k: SettlementKey, a: int, l: SettlementKey, b: int)
    ensures KeyAmountLe(k, a, l, b) || KeyAmountLe(l, b, k, a)
  {
    LexTotal(k.withdrawAuthority, l.withdrawAuthority);
    LexTotal(k.stakeAuthority, l.stakeAuthority);
  }

  lemma KeyAmountLeAntisymmetric(k: SettlementKey, a: int, l: SettlementKey, b: int)
    requires KeyAmountLe(k, a, l, b) && KeyAmountLe(l, b, k, a)
    ensures k == l && a == b
  {
    if k.withdrawAuthority != l.withdrawAuthority {
      LexAntisymmetric(k.withdrawAuthority, l.withdrawAuthority);
    } else if k.stakeAuthority != l.stakeAuthority {
      LexAntisymmetric(k.stakeAuthority, l.stakeAuthority);
    }
  }

  lemma LexStrictTransitive(a: Pubkey, b: Pubkey, c: Pubkey)
    requires LexLe(a, b) && LexLe(b, c) && a != b
    ensures LexLe(a, c) && a != c
  {
    LexTransitive(a, b, c);
    if a == c {
      LexAntisymmetric(a, b);
    }
  }

  lemma KeyAmountLeTransitive(k: SettlementKey, a: int, l: SettlementKey, b: int, m: SettlementKey, c: int)
    requires KeyAmountLe(k, a, l, b) && KeyAmountLe(l, b, m, c)
    ensures KeyAmountLe(k, a, m, c)
  {
    if k.withdrawAuthority != l.withdrawAuthority && l.withdrawAuthority != m.withdrawAuthority {
      LexStrictTransitive(k.withdrawAuthority, l.withdrawAuthority, m.withdrawAuthority);
    } else if k.withdrawAuthority == l.withdrawAuthority == m.withdrawAuthority
              && k.stakeAuthority != l.stakeAuthority && l.stakeAuthority != m.stakeAuthority {
      LexStrictTransitive(k.stakeAuthority, l.stakeAuthority, m.stakeAuthority);
    }
  }

  /** The key of `sort_claims_deterministically`. */
  function ClaimLe(): (SettlementClaim, SettlementClaim) -> bool {
    (a: SettlementClaim, b: SettlementClaim) => KeyAmountLe(KeyOf(a), a.claimAmount, KeyOf(b), b.claimAmount)
  }

  /** The key of `sort_merged_claims_deterministically`. */
  function MergedLe(): ((SettlementKey, u64), (SettlementKey, u64)) -> bool {
    (a: (SettlementKey, u64), b: (SettlementKey, u64)) => KeyAmountLe(a.0, a.1, b.0, b.1)
  }

  lemma ClaimLeTotalPreorder()
    ensures TotalPreorder(ClaimLe())
  {
    forall a, b
      ensures ClaimLe()(a, b) || ClaimLe()(b, a)
    {
      KeyAmountLeTotal(KeyOf(a), a.claimAmount, KeyOf(b), b.claimAmount);
    }
    forall a, b, c | ClaimLe()(a, b) && ClaimLe()(b, c)
      ensures ClaimLe()(a, c)
    {
      KeyAmountLeTransitive(KeyOf(a), a.claimAmount, KeyOf(b), b.claimAmount, KeyOf(c), c.claimAmount);
    }
  }

  lemma MergedLeTotalPreorder()
    ensures TotalPreorder(MergedLe())
  {
    forall a, b
      ensures MergedLe()(a, b) || MergedLe()(b, a)
    {
      KeyAmountLeTotal(a.0, a.1, b.0, b.1);
    }
    forall a, b, c | MergedLe()(a, b) && MergedLe()(b, c)
      ensures MergedLe()(a, c)
    {
      KeyAmountLeTransitive(a.0, a.1, b.0, b.1, c.0, c.1);
    }
  }

  /** Sorting merged claims, whose keys are distinct, is strict: no tie is left to the input order. */
  lemma MergedSortStrict(xs: seq<(SettlementKey, u64)>)
    requires forall i, j :: 0 <= i < j < |xs| ==> xs[i].0 != xs[j].0
    ensures StrictlySorted(MergedLe(), Sort(MergedLe(), xs))
  {
    MergedLeTotalPreorder();
    forall a, b | MergedLe()(a, b) && MergedLe()(b, a)
      ensures a.0 == b.0
    {
      KeyAmountLeAntisymmetric(a.0, a.1, b.0, b.1);
    }
    SortStrict(MergedLe(), (a, b) => true, MergedLe(), (m: (SettlementKey, u64)) => m.0, xs);
  }
}
