/** common-rs/src/funded_bonds.rs: what each validator has funded, owes to settlements and is withdrawing. */
module FundedBonds {
  import opened Wrappers
  import opened Bytes
  import opened Sums

  datatype Stake = Stake(voteAccount: Pubkey, lamports: u64)

  datatype WithdrawRequest = WithdrawRequest(voteAccount: Pubkey, requested: u64, withdrawn: u64)

  datatype Claim = Claim(voteAccount: Pubkey, lamports: u64)

  datatype Funds = Funds(
    fundedAmount: u64,
    effectiveAmount: u64,
    remainingWithdrawRequestAmount: u64,
    remainingSettlementClaimAmount: u64)

  type FundsByVote = map<Pubkey, Funds>

  const DEFAULT := Funds(0, 0, 0, 0)

  /** `entry(..).or_default()`. */
  function Entry(funds: FundsByVote, vote: Pubkey): Funds {
    if vote in funds then funds[vote] else DEFAULT
  }

  /** `u64::MAX` asks for everything that is available. */
  predicate Everything(r: WithdrawRequest) {
    r.requested == U64_MAX
  }

  function Outstanding(r: WithdrawRequest, available: nat): nat {
    if Everything(r) then available else Max(r.requested - r.withdrawn, 0)
  }

  // -------------------------------------------------------- per vote account

  function StakeVote(s: Stake): Pubkey { s.voteAccount }
  function StakeLamports(s: Stake): int { s.lamports }
  function ClaimVote(c: Claim): Pubkey { c.voteAccount }
  function ClaimLamports(c: Claim): int { c.lamports }
  function RequestVote(r: WithdrawRequest): Pubkey { r.voteAccount }

  function Funded(stakes: seq<Stake>, vote: Pubkey): int {
    KeySum(StakeVote, StakeLamports, vote, stakes)
  }

  function Claimed(claims: seq<Claim>, vote: Pubkey): int {
    KeySum(ClaimVote, ClaimLamports, vote, claims)
  }

  /** What claims leave of the funds. */
  function Available(stakes: seq<Stake>, claims: seq<Claim>, vote: Pubkey): nat {
    Max(Funded(stakes, vote) - Claimed(claims, vote), 0)
  }

  function IsFor(vote: Pubkey): WithdrawRequest -> bool {
    (r: WithdrawRequest) => r.voteAccount == vote
  }

  function RequestsFor(requests: seq<WithdrawRequest>, vote: Pubkey): seq<WithdrawRequest> {
    Filter(IsFor(vote), requests)
  }

  /** What serving `requests` in order leaves of `available`. */
  function Left(available: nat, requests: seq<WithdrawRequest>): (left: nat)
    ensures left <= available
  {
    if requests == [] then available else
    var left := Left(available, requests[..|requests| - 1]);
    Max(left - Outstanding(requests[|requests| - 1], left), 0)
  }

  /** The amount that serving `requests` in order reports as being withdrawn. */
  function Withdrawing(available: nat, requests: seq<WithdrawRequest>): nat {
    if requests == [] then 0 else
    var front := requests[..|requests| - 1];
    Withdrawing(available, front) + Outstanding(requests[|requests| - 1], Left(available, front))
  }

  ghost predicate Mentioned(stakes: seq<Stake>, requests: seq<WithdrawRequest>, claims: seq<Claim>, vote: Pubkey) {
    HasKey(StakeVote, vote, stakes) || HasKey(ClaimVote, vote, claims) || HasKey(RequestVote, vote, requests)
  }

  /** The funds of `vote` are what the three lists say. */
  ghost predicate IsFundsOf(stakes: seq<Stake>, requests: seq<WithdrawRequest>, claims: seq<Claim>, vote: Pubkey,
                            funds: Funds) {
    var available := Available(stakes, claims, vote);
    && funds.fundedAmount == Funded(stakes, vote)
    && funds.effectiveAmount == Left(available, RequestsFor(requests, vote))
    && funds.remainingWithdrawRequestAmount == Withdrawing(available, RequestsFor(requests, vote))
    && funds.remainingSettlementClaimAmount == Claimed(claims, vote)
  }

  // --------------------------------------------------------------- the three loops

  /** The first loop; None is the panic of an overflowing addition. */
  method AddStakes(stakes: seq<Stake>) returns (result: Option<FundsByVote>)
    ensures result.Some? <==> forall vote :: Funded(stakes, vote) <= U64_MAX
    ensures result.Some? ==> forall vote :: vote in result.value <==> HasKey(StakeVote, vote, stakes)
    ensures result.Some? ==> forall vote ::
              Entry(result.value, vote) == Funds(Entry(result.value, vote).fundedAmount,
                                                 Entry(result.value, vote).fundedAmount, 0, 0)
              && Entry(result.value, vote).fundedAmount == Funded(stakes, vote)
  {
    var funds: FundsByVote := map[];
    for k := 0 to |stakes|
      invariant forall vote :: vote in funds <==> HasKey(StakeVote, vote, stakes[..k])
      invariant forall vote ::
                  Entry(funds, vote) == Funds(Entry(funds, vote).fundedAmount, Entry(funds, vote).fundedAmount, 0, 0)
                  && Entry(funds, vote).fundedAmount == Funded(stakes[..k], vote)
    {
      var s := stakes[k];
      var entry := Entry(funds, s.voteAccount);
      assert stakes[..k + 1] == stakes[..k] + [s];
      forall vote
        ensures Funded(stakes[..k + 1], vote)
             == Funded(stakes[..k], vote) + if vote == s.voteAccount then s.lamports else 0
        ensures HasKey(StakeVote, vote, stakes[..k + 1])
           <==> HasKey(StakeVote, vote, stakes[..k]) || vote == s.voteAccount
      {
        KeySumSnoc(StakeVote, StakeLamports, vote, stakes[..k], s);
        HasKeySnoc(StakeVote, vote, stakes[..k], s);
      }
      if entry.fundedAmount + s.lamports > U64_MAX {
        KeySumPrefix(StakeVote, StakeLamports, s.voteAccount, stakes, k + 1);
        assert Funded(stakes, s.voteAccount) > U64_MAX;
        return None;
      }
      funds := funds[s.voteAccount := entry.(fundedAmount := entry.fundedAmount + s.lamports,
                                             effectiveAmount := entry.effectiveAmount + s.lamports)];
    }
    assert stakes[..|stakes|] == stakes;
    return Some(funds);
  }

  /** The second loop. */
  method SubtractClaims(ghost stakes: seq<Stake>, claims: seq<Claim>, before: FundsByVote)
    returns (result: Option<FundsByVote>)
    requires forall vote :: vote in before <==> Mentioned(stakes, [], [], vote)
    requires forall vote :: IsFundsOf(stakes, [], [], vote, Entry(before, vote))
    ensures result.Some? <==> forall vote :: Claimed(claims, vote) <= U64_MAX
    ensures result.Some? ==> forall vote :: vote in result.value <==> Mentioned(stakes, [], claims, vote)
    ensures result.Some? ==> forall vote :: IsFundsOf(stakes, [], claims, vote, Entry(result.value, vote))
  {
    var funds: FundsByVote := before;
    for k := 0 to |claims|
      invariant forall vote :: vote in funds <==> Mentioned(stakes, [], claims[..k], vote)
      invariant forall vote :: IsFundsOf(stakes, [], claims[..k], vote, Entry(funds, vote))
    {
      var c := claims[k];
      var entry := Entry(funds, c.voteAccount);
      assert claims[..k + 1] == claims[..k] + [c];
      forall vote
        ensures Claimed(claims[..k + 1], vote)
             == Claimed(claims[..k], vote) + if vote == c.voteAccount then c.lamports else 0
        ensures HasKey(ClaimVote, vote, claims[..k + 1])
           <==> HasKey(ClaimVote, vote, claims[..k]) || vote == c.voteAccount
      {
        KeySumSnoc(ClaimVote, ClaimLamports, vote, claims[..k], c);
        HasKeySnoc(ClaimVote, vote, claims[..k], c);
      }
      KeySumBounds(StakeVote, StakeLamports, c.voteAccount, stakes);
      if entry.remainingSettlementClaimAmount + c.lamports > U64_MAX {
        KeySumPrefix(ClaimVote, ClaimLamports, c.voteAccount, claims, k + 1);
        assert Claimed(claims, c.voteAccount) > U64_MAX;
        return None;
      }
      var funds': FundsByVote := funds[c.voteAccount := entry.(
        remainingSettlementClaimAmount := entry.remainingSettlementClaimAmount + c.lamports,
        effectiveAmount := SatSub(entry.effectiveAmount, c.lamports))];
      forall vote
        ensures IsFundsOf(stakes, [], claims[..k + 1], vote, Entry(funds', vote))
      {
        assert IsFundsOf(stakes, [], claims[..k], vote, Entry(funds, vote));
        assert vote != c.voteAccount ==> Entry(funds', vote) == Entry(funds, vote);
      }
      funds := funds';
    }
    assert claims[..|claims|] == claims;
    assert forall vote :: IsFundsOf(stakes, [], claims, vote, Entry(funds, vote)) ==> Claimed(claims, vote) <= U64_MAX;
    return Some(funds);
  }

  lemma {:induction false} WithdrawingPrefix(available: nat, requests: seq<WithdrawRequest>, vote: Pubkey, k: nat)
    requires k <= |requests|
    ensures Withdrawing(available, RequestsFor(requests[..k], vote))
         <= Withdrawing(available, RequestsFor(requests, vote))
    decreases |requests|
  {
    if k == |requests| {
      assert requests[..k] == requests;
    } else {
      var front, last := requests[..|requests| - 1], requests[|requests| - 1];
      assert requests[..k] == front[..k];
      WithdrawingPrefix(available, front, vote, k);
      assert requests == front + [last];
      ServeOneMore(available, front, last, vote);
    }
  }

  lemma ServeOneMore(available: nat, requests: seq<WithdrawRequest>, r: WithdrawRequest, vote: Pubkey)
    ensures var mine, all := RequestsFor(requests, vote), RequestsFor(requests + [r], vote);
            if r.voteAccount == vote then
              && Left(available, all) == Max(Left(available, mine) - Outstanding(r, Left(available, mine)), 0)
              && Withdrawing(available, all) == Withdrawing(available, mine) + Outstanding(r, Left(available, mine))
            else all == mine
  {
    FilterSnoc(IsFor(vote), requests, r);
    var mine := RequestsFor(requests, vote);
    assert (mine + [r])[..|mine|] == mine;
  }

  /** The third loop. */
  method SubtractRequests(ghost stakes: seq<Stake>, requests: seq<WithdrawRequest>, ghost claims: seq<Claim>,
                          before: FundsByVote)
    returns (result: Option<FundsByVote>)
    requires forall vote :: vote in before <==> Mentioned(stakes, [], claims, vote)
    requires forall vote :: IsFundsOf(stakes, [], claims, vote, Entry(before, vote))
    ensures result.Some? <==>
              forall vote :: Withdrawing(Available(stakes, claims, vote), RequestsFor(requests, vote)) <= U64_MAX
    ensures result.Some? ==> forall vote :: vote in result.value <==> Mentioned(stakes, requests, claims, vote)
    ensures result.Some? ==> forall vote :: IsFundsOf(stakes, requests, claims, vote, Entry(result.value, vote))
  {
    var funds: FundsByVote := before;
    for k := 0 to |requests|
      invariant forall vote :: vote in funds <==> Mentioned(stakes, requests[..k], claims, vote)
      invariant forall vote :: IsFundsOf(stakes, requests[..k], claims, vote, Entry(funds, vote))
    {
      var r := requests[k];
      var entry := Entry(funds, r.voteAccount);
      var outstanding := Outstanding(r, entry.effectiveAmount);
      assert requests[..k + 1] == requests[..k] + [r];
      forall vote
        ensures HasKey(RequestVote, vote, requests[..k + 1])
           <==> HasKey(RequestVote, vote, requests[..k]) || vote == r.voteAccount
      {
        HasKeySnoc(RequestVote, vote, requests[..k], r);
      }
      ghost var available := Available(stakes, claims, r.voteAccount);
      ServeOneMore(available, requests[..k], r, r.voteAccount);
      if entry.remainingWithdrawRequestAmount + outstanding > U64_MAX {
        WithdrawingPrefix(available, requests, r.voteAccount, k + 1);
        assert Withdrawing(Available(stakes, claims, r.voteAccount), RequestsFor(requests, r.voteAccount)) > U64_MAX;
        return None;
      }
      var funds': FundsByVote := funds[r.voteAccount := entry.(
        remainingWithdrawRequestAmount := entry.remainingWithdrawRequestAmount + outstanding,
        effectiveAmount := SatSub(entry.effectiveAmount, outstanding))];
      forall vote
        ensures IsFundsOf(stakes, requests[..k + 1], claims, vote, Entry(funds', vote))
      {
        ServeOneMore(Available(stakes, claims, vote), requests[..k], r, vote);
        assert vote != r.voteAccount ==> Entry(funds', vote) == Entry(funds, vote);
      }
      funds := funds';
    }
    assert requests[..|requests|] == requests;
    assert forall vote :: IsFundsOf(stakes, requests, claims, vote, Entry(funds, vote)) ==>
                            Withdrawing(Available(stakes, claims, vote), RequestsFor(requests, vote)) <= U64_MAX;
    return Some(funds);
  }

  /** Whether all sums of the three loops fit. */
  ghost predicate Fits(stakes: seq<Stake>, requests: seq<WithdrawRequest>, claims: seq<Claim>) {
    forall vote ::
      && Funded(stakes, vote) <= U64_MAX
      && Claimed(claims, vote) <= U64_MAX
      && Withdrawing(Available(stakes, claims, vote), RequestsFor(requests, vote)) <= U64_MAX
  }

  ghost predicate FitsFor(stakes: seq<Stake>, requests: seq<WithdrawRequest>, claims: seq<Claim>, vote: Pubkey) {
    && Funded(stakes, vote) <= U64_MAX
    && Claimed(claims, vote) <= U64_MAX
    && Withdrawing(Available(stakes, claims, vote), RequestsFor(requests, vote)) <= U64_MAX
  }

  // --------------------------------------------- the amounts in terms of the three lists

  function LamportsTo(vote: Pubkey): Stake -> int {
    (s: Stake) => if s.voteAccount == vote then s.lamports else 0
  }

  function ClaimedFrom(vote: Pubkey): Claim -> int {
    (c: Claim) => if c.voteAccount == vote then c.lamports else 0
  }

  /** What is still to be withdrawn of a request that names an amount. */
  function RestOf(vote: Pubkey): WithdrawRequest -> int {
    (r: WithdrawRequest) => if r.voteAccount == vote && r.withdrawn < r.requested then r.requested - r.withdrawn else 0
  }

  /** Some request of `vote` asks for 2^64 - 1 lamports, which stands for everything. */
  ghost predicate AsksForAll(requests: seq<WithdrawRequest>, vote: Pubkey) {
    exists r :: r in requests && r.voteAccount == vote && r.requested == 0xFFFF_FFFF_FFFF_FFFF
  }

  /** Request `k` is the first of `vote` that asks for everything. */
  ghost predicate FirstForAll(requests: seq<WithdrawRequest>, vote: Pubkey, k: nat) {
    && k < |requests| && requests[k].voteAccount == vote && requests[k].requested == 0xFFFF_FFFF_FFFF_FFFF
    && !AsksForAll(requests[..k], vote)
  }

  /** The rest of a request that names an amount, nothing for one that asks for everything. */
  function NamedRestOf(vote: Pubkey): WithdrawRequest -> int {
    (r: WithdrawRequest) => if r.requested == 0xFFFF_FFFF_FFFF_FFFF then 0 else RestOf(vote)(r)
  }

  function FlooredDifference(a: int, b: int): int {
    if b < a then a - b else 0
  }

  /** The four amounts of `vote`: stake adds up, claims add up and come off the stake first, and withdraw requests come
      off the rest. Requests that name amounts are for their own rests; the first one for everything is for what claims
      and the requests before it leave, whatever was withdrawn before, and leaves nothing. */
  ghost predicate AmountsAre(stakes: seq<Stake>, requests: seq<WithdrawRequest>, claims: seq<Claim>, vote: Pubkey,
                             funds: Funds) {
    var staked, claimed := Sum(LamportsTo(vote), stakes), Sum(ClaimedFrom(vote), claims);
    var available := FlooredDifference(staked, claimed);
    && funds.fundedAmount == staked && funds.remainingSettlementClaimAmount == claimed
    && (!AsksForAll(requests, vote) ==>
          && funds.remainingWithdrawRequestAmount == Sum(RestOf(vote), requests)
          && funds.effectiveAmount == FlooredDifference(available, Sum(RestOf(vote), requests)))
    && (forall k: nat :: FirstForAll(requests, vote, k) ==>
          && funds.remainingWithdrawRequestAmount
             == Sum(NamedRestOf(vote), requests) + FlooredDifference(available, Sum(RestOf(vote), requests[..k]))
          && funds.effectiveAmount == 0)
  }

  /** Stake, claims or withdrawals of `vote` exceed 64 bits. */
  ghost predicate Overflows(stakes: seq<Stake>, requests: seq<WithdrawRequest>, claims: seq<Claim>, vote: Pubkey) {
    var staked, claimed := Sum(LamportsTo(vote), stakes), Sum(ClaimedFrom(vote), claims);
    var available := FlooredDifference(staked, claimed);
    || staked > 0xFFFF_FFFF_FFFF_FFFF || claimed > 0xFFFF_FFFF_FFFF_FFFF
    || (!AsksForAll(requests, vote) && Sum(RestOf(vote), requests) > 0xFFFF_FFFF_FFFF_FFFF)
    || (exists k: nat :: FirstForAll(requests, vote, k)
          && Sum(NamedRestOf(vote), requests) + FlooredDifference(available, Sum(RestOf(vote), requests[..k]))
             > 0xFFFF_FFFF_FFFF_FFFF)
  }

  lemma {:induction false} StakedIs(stakes: seq<Stake>, vote: Pubkey)
    ensures Funded(stakes, vote) == Sum(LamportsTo(vote), stakes)
  {
    if stakes != [] {
      StakedIs(stakes[1..], vote);
    }
  }

  lemma {:induction false} ClaimedIs(claims: seq<Claim>, vote: Pubkey)
    ensures Claimed(claims, vote) == Sum(ClaimedFrom(vote), claims)
  {
    if claims != [] {
      ClaimedIs(claims[1..], vote);
    }
  }

  lemma OneMoreRest(available: nat, served: seq<WithdrawRequest>, last: WithdrawRequest)
    requires last.requested != 0xFFFF_FFFF_FFFF_FFFF
    ensures var rest := RestOf(last.voteAccount)(last);
            && Withdrawing(available, served + [last]) == Withdrawing(available, served) + rest
            && Left(available, served + [last]) == Max(Left(available, served) - rest, 0)
  {
    assert (served + [last])[..|served|] == served;
  }

  /** Serving requests none of which asks for everything. */
  lemma {:induction false} RestsAre(available: nat, requests: seq<WithdrawRequest>, vote: Pubkey)
    requires !AsksForAll(requests, vote)
    ensures var rests := Sum(RestOf(vote), requests);
            && rests >= 0
            && Withdrawing(available, RequestsFor(requests, vote)) == rests
            && Left(available, RequestsFor(requests, vote)) == FlooredDifference(available, rests)
  {
    if requests != [] {
      var front, last := requests[..|requests| - 1], requests[|requests| - 1];
      assert requests == front + [last];
      RestsAre(available, front, vote);
      SumSnoc(RestOf(vote), front, last);
      RequestsForSnoc(front, last, vote);
      assert last in requests;
      if last.voteAccount == vote {
        OneMoreRest(available, RequestsFor(front, vote), last);
      }
    }
  }

  lemma RequestsForSnoc(front: seq<WithdrawRequest>, last: WithdrawRequest, vote: Pubkey)
    ensures RequestsFor(front + [last], vote)
         == if last.voteAccount == vote then RequestsFor(front, vote) + [last] else RequestsFor(front, vote)
    ensures last.voteAccount == vote ==>
              var served := RequestsFor(front + [last], vote);
              served[..|served| - 1] == RequestsFor(front, vote) && served[|served| - 1] == last
  {
    FilterSnoc(IsFor(vote), front, last);
  }

  /** Once everything is asked for, nothing is left. */
  lemma {:induction false} NothingLeft(available: nat, requests: seq<WithdrawRequest>, vote: Pubkey)
    requires AsksForAll(requests, vote)
    ensures Left(available, RequestsFor(requests, vote)) == 0
  {
    var front, last := requests[..|requests| - 1], requests[|requests| - 1];
    assert requests == front + [last];
    RequestsForSnoc(front, last, vote);
    if AsksForAll(front, vote) {
      NothingLeft(available, front, vote);
    }
  }

  lemma OneMoreForAll(available: nat, served: seq<WithdrawRequest>, last: WithdrawRequest)
    requires last.requested == 0xFFFF_FFFF_FFFF_FFFF
    ensures Withdrawing(available, served + [last]) == Withdrawing(available, served) + Left(available, served)
  {
    assert (served + [last])[..|served|] == served;
  }

  lemma {:induction false} NamedRestsAre(requests: seq<WithdrawRequest>, vote: Pubkey)
    requires !AsksForAll(requests, vote)
    ensures Sum(NamedRestOf(vote), requests) == Sum(RestOf(vote), requests)
  {
    if requests != [] {
      assert requests == [requests[0]] + requests[1..];
      assert requests[0] in requests;
      NamedRestsAre(requests[1..], vote);
    }
  }

  /** Serving requests of which request `k` is the first for everything. */
  lemma {:induction false} ServedFromFirst(available: nat, requests: seq<WithdrawRequest>, vote: Pubkey, k: nat)
    requires FirstForAll(requests, vote, k)
    ensures Withdrawing(available, RequestsFor(requests, vote))
         == Sum(NamedRestOf(vote), requests) + FlooredDifference(available, Sum(RestOf(vote), requests[..k]))
  {
    var front, last := requests[..|requests| - 1], requests[|requests| - 1];
    assert requests == front + [last];
    RequestsForSnoc(front, last, vote);
    SumSnoc(NamedRestOf(vote), front, last);
    if k == |front| {
      RestsAre(available, front, vote);
      NamedRestsAre(front, vote);
      OneMoreForAll(available, RequestsFor(front, vote), last);
    } else {
      assert front[..k] == requests[..k] && front[k] in front;
      ServedFromFirst(available, front, vote, k);
      if last.voteAccount == vote && last.requested == 0xFFFF_FFFF_FFFF_FFFF {
        NothingLeft(available, front, vote);
        OneMoreForAll(available, RequestsFor(front, vote), last);
      } else if last.voteAccount == vote {
        OneMoreRest(available, RequestsFor(front, vote), last);
      }
    }
  }

  lemma {:induction false} FirstForAllExists(requests: seq<WithdrawRequest>, vote: Pubkey) returns (k: nat)
    requires AsksForAll(requests, vote)
    ensures FirstForAll(requests, vote, k)
  {
    var front := requests[..|requests| - 1];
    assert requests == front + [requests[|requests| - 1]];
    if AsksForAll(front, vote) {
      k := FirstForAllExists(front, vote);
      assert requests[..k] == front[..k];
    } else {
      k := |front|;
    }
  }

  lemma FirstAsksForAll(requests: seq<WithdrawRequest>, vote: Pubkey, k: nat)
    requires FirstForAll(requests, vote, k)
    ensures AsksForAll(requests, vote)
  {
    assert requests[k] in requests;
  }

  lemma OverflowMeans(stakes: seq<Stake>, requests: seq<WithdrawRequest>, claims: seq<Claim>, vote: Pubkey)
    ensures Overflows(stakes, requests, claims, vote) <==> !FitsFor(stakes, requests, claims, vote)
  {
    var available := Available(stakes, claims, vote);
    StakedIs(stakes, vote);
    ClaimedIs(claims, vote);
    forall k: nat | FirstForAll(requests, vote, k)
      ensures AsksForAll(requests, vote)
      ensures Withdrawing(available, RequestsFor(requests, vote))
           == Sum(NamedRestOf(vote), requests) + FlooredDifference(available, Sum(RestOf(vote), requests[..k]))
    {
      FirstAsksForAll(requests, vote, k);
      ServedFromFirst(available, requests, vote, k);
    }
    if AsksForAll(requests, vote) {
      var k := FirstForAllExists(requests, vote);
    } else {
      RestsAre(available, requests, vote);
    }
  }

  lemma FitsForEach(stakes: seq<Stake>, requests: seq<WithdrawRequest>, claims: seq<Claim>)
    ensures Fits(stakes, requests, claims) <==> forall vote :: FitsFor(stakes, requests, claims, vote)
  {
    if forall vote :: FitsFor(stakes, requests, claims, vote) {
      forall vote
        ensures Funded(stakes, vote) <= U64_MAX && Claimed(claims, vote) <= U64_MAX
        ensures Withdrawing(Available(stakes, claims, vote), RequestsFor(requests, vote)) <= U64_MAX
      {
        assert FitsFor(stakes, requests, claims, vote);
      }
    }
  }

  lemma FitsMeans(stakes: seq<Stake>, requests: seq<WithdrawRequest>, claims: seq<Claim>)
    ensures Fits(stakes, requests, claims) <==> !exists vote :: Overflows(stakes, requests, claims, vote)
  {
    FitsForEach(stakes, requests, claims);
    if Fits(stakes, requests, claims) {
      forall vote
        ensures !Overflows(stakes, requests, claims, vote)
      {
        OverflowMeans(stakes, requests, claims, vote);
      }
    } else {
      var vote :| !FitsFor(stakes, requests, claims, vote);
      OverflowMeans(stakes, requests, claims, vote);
    }
  }

  lemma FundsAre(stakes: seq<Stake>, requests: seq<WithdrawRequest>, claims: seq<Claim>, vote: Pubkey, funds: Funds)
    requires IsFundsOf(stakes, requests, claims, vote, funds)
    ensures AmountsAre(stakes, requests, claims, vote, funds)
  {
    var available := Available(stakes, claims, vote);
    StakedIs(stakes, vote);
    ClaimedIs(claims, vote);
    if !AsksForAll(requests, vote) {
      RestsAre(available, requests, vote);
    }
    forall k: nat | FirstForAll(requests, vote, k)
      ensures Left(available, RequestsFor(requests, vote)) == 0
      ensures Withdrawing(available, RequestsFor(requests, vote))
           == Sum(NamedRestOf(vote), requests) + FlooredDifference(available, Sum(RestOf(vote), requests[..k]))
    {
      assert requests[k] in requests;
      NothingLeft(available, requests, vote);
      ServedFromFirst(available, requests, vote, k);
    }
  }

  /** `aggregate_funds`: claims are subtracted before withdraw requests. None is the panic of an overflow. */
  method AggregateFunds(stakes: seq<Stake>, requests: seq<WithdrawRequest>, claims: seq<Claim>)
    returns (result: Option<FundsByVote>)
    ensures result.Some? <==> Fits(stakes, requests, claims)
    ensures result.Some? ==> forall vote :: vote in result.value <==> Mentioned(stakes, requests, claims, vote)
    ensures result.Some? ==> forall vote :: IsFundsOf(stakes, requests, claims, vote, Entry(result.value, vote))
    ensures result.Some? ==> forall vote :: AmountsAre(stakes, requests, claims, vote, Entry(result.value, vote))
    ensures result.None? <==> exists vote :: Overflows(stakes, requests, claims, vote)
  {
    FitsMeans(stakes, requests, claims);
    result := AddStakes(stakes);
    if result.Some? {
      assert forall vote :: IsFundsOf(stakes, [], [], vote, Entry(result.value, vote)) by {
        forall vote
          ensures IsFundsOf(stakes, [], [], vote, Entry(result.value, vote))
        {
          KeySumBounds(StakeVote, StakeLamports, vote, stakes);
        }
      }
      result := SubtractClaims(stakes, claims, result.value);
    }
    if result.Some? {
      result := SubtractRequests(stakes, requests, claims, result.value);
    }
    if result.Some? {
      forall vote
        ensures AmountsAre(stakes, requests, claims, vote, Entry(result.value, vote))
      {
        FundsAre(stakes, requests, claims, vote, Entry(result.value, vote));
      }
    }
  }

  // ---------------------------------------------------------------- what the amounts mean

  /** What a request that names an amount still asks for. */
  function Verbatim(r: WithdrawRequest): int {
    Max(r.requested - r.withdrawn, 0)
  }

  predicate AnyEverything(requests: seq<WithdrawRequest>) {
    exists r :: r in requests && Everything(r)
  }

  /** Serving requests one by one leaves nothing once everything is asked for, and else the funds minus the sum. */
  lemma {:induction false} LeftClosedForm(available: nat, requests: seq<WithdrawRequest>)
    ensures Left(available, requests)
         == if AnyEverything(requests) then 0 else Max(available - Sum(Verbatim, requests), 0)
  {
    if requests != [] {
      var front, last := requests[..|requests| - 1], requests[|requests| - 1];
      LeftClosedForm(available, front);
      assert requests == front + [last];
      SumSnoc(Verbatim, front, last);
    }
  }

  lemma LeftOrderIndependent(available: nat, requests: seq<WithdrawRequest>, other: seq<WithdrawRequest>)
    requires multiset(requests) == multiset(other)
    ensures Left(available, requests) == Left(available, other)
  {
    SumPermutation(Verbatim, requests, other);
    SameMembers(requests, other);
    LeftClosedForm(available, requests);
    LeftClosedForm(available, other);
  }

  /** The effective amount does not depend on the order of any of the three lists. */
  lemma EffectiveOrderIndependent(stakes: seq<Stake>, requests: seq<WithdrawRequest>, claims: seq<Claim>, vote: Pubkey,
                                  funds: Funds, stakes': seq<Stake>, requests': seq<WithdrawRequest>,
                                  claims': seq<Claim>, funds': Funds)
    requires multiset(stakes) == multiset(stakes')
    requires multiset(requests) == multiset(requests')
    requires multiset(claims) == multiset(claims')
    requires IsFundsOf(stakes, requests, claims, vote, funds) && IsFundsOf(stakes', requests', claims', vote, funds')
    ensures funds.effectiveAmount == funds'.effectiveAmount
    ensures funds.fundedAmount == funds'.fundedAmount
    ensures funds.remainingSettlementClaimAmount == funds'.remainingSettlementClaimAmount
  {
    KeySumPermutation(StakeVote, StakeLamports, vote, stakes, stakes');
    KeySumPermutation(ClaimVote, ClaimLamports, vote, claims, claims');
    var mine, mine' := RequestsFor(requests, vote), RequestsFor(requests', vote);
    PermutedRequestsFor(requests, requests', vote);
    LeftOrderIndependent(Available(stakes, claims, vote), mine, mine');
  }

  /** A request that names an amount is covered by what the earlier ones left, and by nothing once everything was
      asked for. */
  predicate CoveredAt(available: nat, requests: seq<WithdrawRequest>, k: nat)
    requires k < |requests|
  {
    Everything(requests[k])
    || if AnyEverything(requests[..k]) then Verbatim(requests[k]) == 0
       else Sum(Verbatim, requests[..k]) + Verbatim(requests[k]) <= available
  }

  ghost predicate Covered(available: nat, requests: seq<WithdrawRequest>) {
    forall k: nat :: k < |requests| ==> CoveredAt(available, requests, k)
  }

  lemma CoveredSnoc(available: nat, requests: seq<WithdrawRequest>, r: WithdrawRequest)
    ensures Covered(available, requests + [r]) <==>
              Covered(available, requests) && CoveredAt(available, requests + [r], |requests|)
  {
    var all := requests + [r];
    forall k: nat | k < |requests|
      ensures CoveredAt(available, all, k) <==> CoveredAt(available, requests, k)
    {
      assert all[..k] == requests[..k];
    }
  }

  lemma {:induction false} RequestsReconcile(available: nat, requests: seq<WithdrawRequest>)
    ensures Left(available, requests) + Withdrawing(available, requests) >= available
    ensures Left(available, requests) + Withdrawing(available, requests) == available <==> Covered(available, requests)
    ensures Covered(available, requests) && !AnyEverything(requests) ==> Sum(Verbatim, requests) <= available
  {
    if requests != [] {
      var front, last := requests[..|requests| - 1], requests[|requests| - 1];
      RequestsReconcile(available, front);
      LeftClosedForm(available, front);
      assert requests == front + [last];
      CoveredSnoc(available, front, last);
      SumSnoc(Verbatim, front, last);
    }
  }

  /** Reconciliation: effective amount, settlement claims and withdrawals account at least for everything funded, and
      for exactly that when and only when the claims are funded and each request that names an amount is covered. */
  lemma FundsReconcile(stakes: seq<Stake>, requests: seq<WithdrawRequest>, claims: seq<Claim>, vote: Pubkey,
                       funds: Funds)
    requires IsFundsOf(stakes, requests, claims, vote, funds)
    ensures var total := funds.effectiveAmount + funds.remainingSettlementClaimAmount
            + funds.remainingWithdrawRequestAmount;
            && total >= funds.fundedAmount
            && (total == funds.fundedAmount <==>
                  && Claimed(claims, vote) <= Funded(stakes, vote)
                  && Covered(Available(stakes, claims, vote), RequestsFor(requests, vote)))
  {
    RequestsReconcile(Available(stakes, claims, vote), RequestsFor(requests, vote));
  }

  /** In particular the three parts add up when the claims are funded and every request asks for everything. */
  lemma EverythingReconciles(stakes: seq<Stake>, requests: seq<WithdrawRequest>, claims: seq<Claim>, vote: Pubkey,
                             funds: Funds)
    requires IsFundsOf(stakes, requests, claims, vote, funds)
    requires Claimed(claims, vote) <= Funded(stakes, vote)
    requires forall r :: r in requests && r.voteAccount == vote ==> Everything(r)
    ensures funds.effectiveAmount + funds.remainingSettlementClaimAmount + funds.remainingWithdrawRequestAmount
         == funds.fundedAmount
  {
    var mine := RequestsFor(requests, vote);
    forall k | 0 <= k < |mine|
      ensures Everything(mine[k])
    {
      FilterMembers(IsFor(vote), requests, mine[k]);
    }
    FundsReconcile(stakes, requests, claims, vote, funds);
  }

  /** What a request asks for by name; the sentinel names nothing. */
  function Named(r: WithdrawRequest): int {
    if Everything(r) then 0 else Verbatim(r)
  }

  /** The requests before the first that asks for everything. */
  function BeforeEverything(requests: seq<WithdrawRequest>): seq<WithdrawRequest> {
    if requests == [] || Everything(requests[0]) then [] else [requests[0]] + BeforeEverything(requests[1..])
  }

  lemma {:induction false} BeforeEverythingSnoc(requests: seq<WithdrawRequest>, r: WithdrawRequest)
    ensures BeforeEverything(requests + [r])
         == if AnyEverything(requests) || Everything(r) then BeforeEverything(requests) else requests + [r]
    ensures !AnyEverything(requests) ==> BeforeEverything(requests) == requests
  {
    if requests == [] {
      assert requests + [r] == [r] && [r][1..] == requests;
    } else {
      assert (requests + [r])[1..] == requests[1..] + [r];
      assert requests == [requests[0]] + requests[1..];
      BeforeEverythingSnoc(requests[1..], r);
    }
  }

  lemma {:induction false} NamedIsVerbatim(requests: seq<WithdrawRequest>)
    ensures Sum(Named, requests) >= 0
    ensures !AnyEverything(requests) ==> Sum(Named, requests) == Sum(Verbatim, requests)
  {
    if requests != [] {
      assert requests[0] in requests;
      NamedIsVerbatim(requests[1..]);
    }
  }

  lemma LeftWhenNamed(available: nat, requests: seq<WithdrawRequest>)
    ensures Left(available, requests)
         == if AnyEverything(requests) then 0 else Max(available - Sum(Named, BeforeEverything(requests)), 0)
  {
    LeftClosedForm(available, requests);
    NamedIsVerbatim(requests);
    if requests != [] {
      var front, last := requests[..|requests| - 1], requests[|requests| - 1];
      assert requests == front + [last];
      BeforeEverythingSnoc(front, last);
    }
  }

  /** The amount being withdrawn in closed form: all that is named, and, once everything is asked for, what the requests
      before that left. */
  lemma {:induction false} WithdrawingClosedForm(available: nat, requests: seq<WithdrawRequest>)
    ensures Withdrawing(available, requests)
         == Sum(Named, requests)
            + if AnyEverything(requests) then Max(available - Sum(Named, BeforeEverything(requests)), 0) else 0
  {
    if requests != [] {
      var front, last := requests[..|requests| - 1], requests[|requests| - 1];
      assert requests == front + [last];
      WithdrawingClosedForm(available, front);
      LeftWhenNamed(available, front);
      SumSnoc(Named, front, last);
      BeforeEverythingSnoc(front, last);
    }
  }

  /** Two ends of every order: everything asked for first, or last. */
  function EverythingFirst(requests: seq<WithdrawRequest>): seq<WithdrawRequest> {
    Filter(Everything, requests) + Filter(NotEverything, requests)
  }

  function EverythingLast(requests: seq<WithdrawRequest>): seq<WithdrawRequest> {
    Filter(NotEverything, requests) + Filter(Everything, requests)
  }

  predicate NotEverything(r: WithdrawRequest) {
    !Everything(r)
  }

  lemma EndsArePermutations(requests: seq<WithdrawRequest>)
    ensures multiset(EverythingFirst(requests)) == multiset(requests)
    ensures multiset(EverythingLast(requests)) == multiset(requests)
  {
    forall r
      ensures multiset(EverythingFirst(requests))[r] == multiset(requests)[r]
    {
      FilterMultiset(Everything, requests, r);
      FilterMultiset(NotEverything, requests, r);
    }
    assert multiset(EverythingLast(requests)) == multiset(EverythingFirst(requests));
  }

  lemma {:induction false} BeforeEverythingOfSplit(named: seq<WithdrawRequest>, everything: seq<WithdrawRequest>)
    requires !AnyEverything(named) && everything != [] && Everything(everything[0])
    ensures BeforeEverything(named + everything) == named
  {
    if named == [] {
      assert named + everything == everything;
    } else {
      assert (named + everything)[1..] == named[1..] + everything;
      assert named[0] in named;
      BeforeEverythingOfSplit(named[1..], everything);
    }
  }

  /** Everything first reports all funds on top of what is named. */
  lemma EverythingThenNamed(available: nat, everything: seq<WithdrawRequest>, named: seq<WithdrawRequest>)
    requires everything != [] && forall r :: r in everything ==> Everything(r)
    ensures Withdrawing(available, everything + named) == Sum(Named, named) + available
  {
    SumZero(Named, everything);
    SumConcat(Named, everything, named);
    assert (everything + named)[0] == everything[0] && everything[0] in everything;
    assert everything[0] in everything + named;
    WithdrawingClosedForm(available, everything + named);
  }

  /** Everything last reports the larger of the two. */
  lemma NamedThenEverything(available: nat, everything: seq<WithdrawRequest>, named: seq<WithdrawRequest>)
    requires everything != [] && forall r :: r in everything ==> Everything(r)
    requires !AnyEverything(named)
    ensures Withdrawing(available, named + everything) == Max(Sum(Named, named), available)
  {
    SumZero(Named, everything);
    SumConcat(Named, named, everything);
    assert everything[0] in everything;
    assert everything[0] in named + everything;
    WithdrawingClosedForm(available, named + everything);
    BeforeEverythingOfSplit(named, everything);
  }

  lemma WithdrawingAtEnds(available: nat, requests: seq<WithdrawRequest>)
    requires AnyEverything(requests)
    ensures Withdrawing(available, EverythingFirst(requests)) == Sum(Named, requests) + available
    ensures Withdrawing(available, EverythingLast(requests)) == Max(Sum(Named, requests), available)
  {
    var everything, named := Filter(Everything, requests), Filter(NotEverything, requests);
    forall r
      ensures r in everything <==> r in requests && Everything(r)
      ensures r in named <==> r in requests && !Everything(r)
    {
      FilterMembers(Everything, requests, r);
      FilterMembers(NotEverything, requests, r);
    }
    var r :| r in requests && Everything(r);
    assert r in everything;
    EverythingThenNamed(available, everything, named);
    NamedThenEverything(available, everything, named);
    EndsArePermutations(requests);
    SumPermutation(Named, EverythingFirst(requests), requests);
    SumZero(Named, everything);
    SumConcat(Named, everything, named);
  }

  lemma {:induction false} NamedBefore(requests: seq<WithdrawRequest>)
    ensures 0 <= Sum(Named, BeforeEverything(requests)) <= Sum(Named, requests)
  {
    NamedIsVerbatim(requests);
    if requests != [] && !Everything(requests[0]) {
      NamedBefore(requests[1..]);
      assert ([requests[0]] + BeforeEverything(requests[1..]))[1..] == BeforeEverything(requests[1..]);
    }
  }

  /** Whether the order of requests can show: some ask for everything, there is something to give, and something is
      named as well. */
  predicate OrderShows(available: nat, requests: seq<WithdrawRequest>) {
    AnyEverything(requests) && available > 0 && Sum(Named, requests) > 0
  }

  lemma WithdrawingWhenHidden(available: nat, requests: seq<WithdrawRequest>)
    requires !OrderShows(available, requests)
    ensures Withdrawing(available, requests) == Sum(Named, requests) + if AnyEverything(requests) then available else 0
  {
    WithdrawingClosedForm(available, requests);
    NamedBefore(requests);
    if AnyEverything(requests) {
      var before := Sum(Named, BeforeEverything(requests));
      if available == 0 {
        assert Max(available - before, 0) == 0;
      } else {
        assert before == 0;
      }
    }
  }

  lemma SameWhenOrderHidden(available: nat, requests: seq<WithdrawRequest>, other: seq<WithdrawRequest>)
    requires multiset(requests) == multiset(other) && !OrderShows(available, requests)
    ensures Withdrawing(available, requests) == Withdrawing(available, other)
  {
    SumPermutation(Named, requests, other);
    SameMembers(requests, other);
    WithdrawingWhenHidden(available, requests);
    WithdrawingWhenHidden(available, other);
  }

  /** When the amount being withdrawn depends on the order of requests: all orders report the same if and only if nobody
      asks for everything, or nothing is available, or nothing is asked for by name. */
  lemma WithdrawingOrder(available: nat, requests: seq<WithdrawRequest>)
    ensures (forall other :: multiset(other) == multiset(requests) ==>
               Withdrawing(available, other) == Withdrawing(available, requests))
       <==> !OrderShows(available, requests)
  {
    if OrderShows(available, requests) {
      WithdrawingAtEnds(available, requests);
      EndsArePermutations(requests);
      assert Withdrawing(available, EverythingFirst(requests)) != Withdrawing(available, EverythingLast(requests));
    } else {
      forall other | multiset(other) == multiset(requests)
        ensures Withdrawing(available, other) == Withdrawing(available, requests)
      {
        SameWhenOrderHidden(available, requests, other);
      }
    }
  }

  lemma PermutedRequestsFor(requests: seq<WithdrawRequest>, other: seq<WithdrawRequest>, vote: Pubkey)
    requires multiset(requests) == multiset(other)
    ensures multiset(RequestsFor(requests, vote)) == multiset(RequestsFor(other, vote))
  {
    forall r
      ensures multiset(RequestsFor(requests, vote))[r] == multiset(RequestsFor(other, vote))[r]
    {
      FilterMultiset(IsFor(vote), requests, r);
      FilterMultiset(IsFor(vote), other, r);
    }
  }

  /** Seen from the whole list of requests: one vote account's amount is the same in every order of the list if and only
      if the order of its own requests cannot show. */
  lemma WithdrawingOrderOfVote(available: nat, requests: seq<WithdrawRequest>, vote: Pubkey)
    ensures (forall other :: multiset(other) == multiset(requests) ==>
               Withdrawing(available, RequestsFor(other, vote)) == Withdrawing(available, RequestsFor(requests, vote)))
       <==> !OrderShows(available, RequestsFor(requests, vote))
  {
    var mine := RequestsFor(requests, vote);
    if OrderShows(available, mine) {
      WithdrawingAtEnds(available, mine);
      EndsArePermutations(requests);
      FilterCommutes(IsFor(vote), Everything, requests);
      FilterCommutes(IsFor(vote), NotEverything, requests);
      FilterConcat(IsFor(vote), Filter(Everything, requests), Filter(NotEverything, requests));
      FilterConcat(IsFor(vote), Filter(NotEverything, requests), Filter(Everything, requests));
      assert RequestsFor(EverythingFirst(requests), vote) == EverythingFirst(mine);
      assert RequestsFor(EverythingLast(requests), vote) == EverythingLast(mine);
    } else {
      forall other | multiset(other) == multiset(requests)
        ensures Withdrawing(available, RequestsFor(other, vote)) == Withdrawing(available, mine)
      {
        PermutedRequestsFor(requests, other, vote);
        SameWhenOrderHidden(available, mine, RequestsFor(other, vote));
      }
    }
  }

  /** And when no order of requests overflows: exactly when all funds on top of what is named fit. */
  lemma FitsInEveryOrder(available: nat, requests: seq<WithdrawRequest>)
    ensures (forall other :: multiset(other) == multiset(requests) ==> Withdrawing(available, other) <= U64_MAX)
       <==> Sum(Named, requests) + (if AnyEverything(requests) then available else 0) <= U64_MAX
  {
    forall other | multiset(other) == multiset(requests)
      ensures Withdrawing(available, other) <= Sum(Named, requests) + if AnyEverything(requests) then available else 0
    {
      SumPermutation(Named, requests, other);
      SameMembers(requests, other);
      WithdrawingClosedForm(available, other);
      NamedBefore(other);
    }
    EndsArePermutations(requests);
    if AnyEverything(requests) {
      WithdrawingAtEnds(available, requests);
    } else {
      WithdrawingClosedForm(available, requests);
    }
  }

  /** A list whose order shows: of 100 lamports, everything and then 30 is reported as 130, 30 and then everything
      as 100. */
  lemma WithdrawingDependsOnOrder(vote: Pubkey)
    ensures var everything, some := WithdrawRequest(vote, U64_MAX, 0), WithdrawRequest(vote, 30, 0);
            Withdrawing(100, [everything, some]) == 130 && Withdrawing(100, [some, everything]) == 100
  {
    var everything, some := WithdrawRequest(vote, U64_MAX, 0), WithdrawRequest(vote, 30, 0);
    var none: seq<WithdrawRequest> := [];
    assert [some][1..] == none;
    assert Sum(Named, [some]) == 30;
    EverythingThenNamed(100, [everything], [some]);
    NamedThenEverything(100, [everything], [some]);
    assert [everything] + [some] == [everything, some] && [some] + [everything] == [some, everything];
  }
}
