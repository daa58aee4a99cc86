/** settlement-distributions/merkle-generator: settlements of several sources become one Merkle tree per
    (vote account, funder), independently of every order in the input and of hash-map iteration. */
module MerkleGenerator {
  import opened Wrappers
  import opened Bytes
  import opened Sums
  import opened Sorting
  import opened MerkleTrees
  import opened MerkleProofs
  import opened TreeNodes
  import opened SettlementCollections

  datatype SettlementSource = SettlementSource(name: string, collection: SettlementCollection)

  /** `AmountOverflow` is the panic of a checked addition. */
  datatype GeneratorError =
    | NoSources
    | EpochMismatch(name: string, epoch: u64)
    | SlotMismatch(name: string, slot: u64)
    | AmountOverflow

  /** The hash and the account derivations, deterministic functions whose inside is not modelled. */
  datatype Env = Env(
    digest: seq<byte> -> Hash,
    validatorBondsConfig: Pubkey,
    bondAddress: (Pubkey, Pubkey) -> Pubkey,
    settlementAddress: (Pubkey, Hash, u64) -> Pubkey)

  datatype MerkleTreeMeta = MerkleTreeMeta(
    merkleRoot: Option<Hash>,
    maxTotalClaimSum: u64,
    maxTotalClaims: nat,
    voteAccount: Pubkey,
    bondAccount: Pubkey,
    settlementAccount: Pubkey,
    fundingSources: map<SettlementFunder, u64>,
    treeNodes: seq<TreeNode>)

  datatype MerkleTreeCollection = MerkleTreeCollection(
    epoch: u64,
    slot: u64,
    validatorBondsConfig: Pubkey,
    sources: seq<string>,
    merkleTrees: seq<MerkleTreeMeta>)

  // ---------------------------------------------------------- the input read as a list of entries

  datatype Group = Group(voteAccount: Pubkey, funder: SettlementFunder)

  /** One claim of one settlement of one source, with the group it falls into. */
  datatype Entry = Entry(group: Group, key: SettlementKey, amount: u64)

  function GroupOf(st: Settlement): Group {
    Group(st.voteAccount, st.funder)
  }

  function SettlementEntries(): Settlement -> seq<Entry> {
    (st: Settlement) => seq(|st.claims|, i requires 0 <= i < |st.claims| =>
        Entry(GroupOf(st), KeyOf(st.claims[i]), st.claims[i].claimAmount))
  }

  function SourceSettlements(): SettlementSource -> seq<Settlement> {
    (source: SettlementSource) => source.collection.settlements
  }

  function SettlementsOf(sources: seq<SettlementSource>): seq<Settlement> {
    FlatMap(SourceSettlements(), sources)
  }

  function EntriesOf(sts: seq<Settlement>): seq<Entry> {
    FlatMap(SettlementEntries(), sts)
  }

  function Entries(sources: seq<SettlementSource>): seq<Entry> {
    EntriesOf(SettlementsOf(sources))
  }

  function EntryKey(): Entry -> (Group, SettlementKey) {
    (e: Entry) => (e.group, e.key)
  }

  function EntryGroup(): Entry -> Group {
    (e: Entry) => e.group
  }

  function EntryAmount(): Entry -> int {
    (e: Entry) => e.amount
  }

  /** Lamports claimed in group `g` over all sources. */
  function GroupTotal(entries: seq<Entry>, g: Group): int {
    KeySum(EntryGroup(), EntryAmount(), g, entries)
  }

  // ------------------------------------------------------------------- meaning of the output

  /** `merged` lists, in key order, each key of group `g` once with the exact sum of its claims. */
  ghost predicate IsMerged(entries: seq<Entry>, g: Group, merged: seq<(SettlementKey, u64)>) {
    && StrictlySorted(MergedLe(), merged)
    && (forall m :: m in merged ==>
          HasKey(EntryKey(), (g, m.0), entries) && m.1 == KeySum(EntryKey(), EntryAmount(), (g, m.0), entries))
    && (forall e :: e in entries && e.group == g ==> HasKey(MergedKey(), e.key, merged))
  }

  function MergedKey(): ((SettlementKey, u64)) -> SettlementKey {
    (m: (SettlementKey, u64)) => m.0
  }

  function MergedAmount(): ((SettlementKey, u64)) -> int {
    (m: (SettlementKey, u64)) => m.1
  }

  /** `index as u64` keeps the low 64 bits. */
  function NodeAt(merged: seq<(SettlementKey, u64)>, i: nat): TreeNode
    requires i < |merged|
  {
    TreeNode(merged[i].0.stakeAuthority, merged[i].0.withdrawAuthority, merged[i].1, i % (U64_MAX + 1), None)
  }

  function TreeScheme(env: Env): Scheme {
    Scheme(env.digest, true)
  }

  function Items(env: Env, nodes: seq<TreeNode>): seq<seq<byte>> {
    seq(|nodes|, i requires 0 <= i < |nodes| => NodeHash(env.digest, nodes[i]))
  }

  function LeavesOf(env: Env, nodes: seq<TreeNode>): seq<Hash> {
    LeafHashes(TreeScheme(env), Items(env, nodes))
  }

  /** The claims a tree's nodes stand for. */
  function MergedOf(t: MerkleTreeMeta): seq<(SettlementKey, u64)> {
    seq(|t.treeNodes|, i requires 0 <= i < |t.treeNodes| =>
        (SettlementKey(t.treeNodes[i].withdrawAuthority, t.treeNodes[i].stakeAuthority), t.treeNodes[i].claim))
  }

  /** `t` is the tree over its own nodes, for group `g`. */
  ghost predicate IsTree(env: Env, epoch: u64, g: Group, t: MerkleTreeMeta) {
    var merged := MergedOf(t);
    var s := TreeScheme(env);
    var leaves := LeavesOf(env, t.treeNodes);
    && merged != []
    && t.merkleRoot == Some(Root(s, leaves))
    && t.maxTotalClaims == |merged|
    && t.maxTotalClaimSum == Sum(MergedAmount(), merged)
    && t.voteAccount == g.voteAccount
    && t.bondAccount == env.bondAddress(env.validatorBondsConfig, g.voteAccount)
    && t.settlementAccount == env.settlementAddress(t.bondAccount, t.merkleRoot.value, epoch)
    && t.fundingSources == map[g.funder := t.maxTotalClaimSum]
    && forall i :: 0 <= i < |merged| ==>
         && t.treeNodes[i].proof.Some?
         && t.treeNodes[i] == NodeAt(merged, i).(proof := t.treeNodes[i].proof)
         && IsProofOf(s, leaves, i, t.treeNodes[i].proof.value)
  }

  /** `t` is the tree that `entries` require for group `g`. */
  ghost predicate IsTreeFor(env: Env, epoch: u64, entries: seq<Entry>, g: Group, t: MerkleTreeMeta) {
    IsTree(env, epoch, g, t) && IsMerged(entries, g, MergedOf(t))
  }

  function FirstFunder(funding: map<SettlementFunder, u64>): Option<SettlementFunder> {
    if ValidatorBond in funding then Some(ValidatorBond)
    else if Marinade in funding then Some(Marinade)
    else None
  }

  function FunderRank(f: Option<SettlementFunder>): nat {
    match f
    case None => 0
    case Some(ValidatorBond) => 1
    case Some(Marinade) => 2
  }

  /** The order of the output: vote account, then the one funder of each tree. */
  function MetaLe(): (MerkleTreeMeta, MerkleTreeMeta) -> bool {
    (a: MerkleTreeMeta, b: MerkleTreeMeta) =>
      if a.voteAccount != b.voteAccount then LexLe(a.voteAccount, b.voteAccount)
      else FunderRank(FirstFunder(a.fundingSources)) <= FunderRank(FirstFunder(b.fundingSources))
  }

  ghost function TreeTest(env: Env, epoch: u64, entries: seq<Entry>): (Group, MerkleTreeMeta) -> bool {
    (g, t) => IsTreeFor(env, epoch, entries, g, t)
  }

  /** `trees` holds exactly the trees that `fits` a group with an entry, one for each, in output order. */
  ghost predicate OnePerGroup(fits: (Group, MerkleTreeMeta) -> bool, entries: seq<Entry>, trees: seq<MerkleTreeMeta>) {
    && StrictlySorted(MetaLe(), trees)
    && (forall t :: t in trees ==> exists g :: fits(g, t))
    && (forall e :: e in entries ==> exists t :: t in trees && fits(e.group, t))
  }

  ghost predicate IsCollection(env: Env, epoch: u64, entries: seq<Entry>, trees: seq<MerkleTreeMeta>) {
    OnePerGroup(TreeTest(env, epoch, entries), entries, trees)
  }

  // --------------------------------------------------------------------- operations

  /** Whether all sources agree with the first on epoch and slot. */
  predicate Consistent(sources: seq<SettlementSource>, i: nat)
    requires 0 < i <= |sources|
  {
    forall j :: 0 <= j < i ==>
      sources[j].collection.epoch == sources[0].collection.epoch
      && sources[j].collection.slot == sources[0].collection.slot
  }

  /** `error` names the first source that differs from the first one, and in what. */
  ghost predicate IsMismatch(sources: seq<SettlementSource>, error: GeneratorError)
    requires sources != []
  {
    exists i :: 0 < i < |sources| && Consistent(sources, i)
      && var c := sources[i].collection;
         if c.epoch != sources[0].collection.epoch then error == EpochMismatch(sources[i].name, c.epoch)
         else c.slot != sources[0].collection.slot && error == SlotMismatch(sources[i].name, c.slot)
  }

  /** `validate_sources`. */
  method ValidateSources(sources: seq<SettlementSource>) returns (r: Result<(u64, u64), GeneratorError>)
    ensures sources == [] <==> r == Failure(NoSources)
    ensures r.Success? <==> sources != [] && Consistent(sources, |sources|)
    ensures r.Success? ==> r.value == (sources[0].collection.epoch, sources[0].collection.slot)
    ensures r.Failure? && sources != [] ==> IsMismatch(sources, r.error)
  {
    if sources == [] {
      return Failure(NoSources);
    }
    var epoch, slot := sources[0].collection.epoch, sources[0].collection.slot;
    for i := 1 to |sources|
      invariant Consistent(sources, i)
    {
      if sources[i].collection.epoch != epoch {
        return Failure(EpochMismatch(sources[i].name, sources[i].collection.epoch));
      }
      if sources[i].collection.slot != slot {
        return Failure(SlotMismatch(sources[i].name, sources[i].collection.slot));
      }
    }
    r := Success((epoch, slot));
  }

  function ClaimKey(): SettlementClaim -> SettlementKey {
    (c: SettlementClaim) => KeyOf(c)
  }

  function ClaimAmount(): SettlementClaim -> int {
    (c: SettlementClaim) => c.claimAmount
  }

  /** `pairs` holds each key of `amounts` once, with its amount. */
  ghost predicate Enumerates<K(!new), V(!new)>(amounts: map<K, V>, pairs: seq<(K, V)>) {
    && (forall i, j :: 0 <= i < j < |pairs| ==> pairs[i].0 != pairs[j].0)
    && (forall k, a :: (k, a) in pairs <==> k in amounts && amounts[k] == a)
  }

  /** `into_iter().collect()`: any order of the entries may come out. */
  method Collect<K(==, !new), V(==, !new)>(amounts: map<K, V>) returns (pairs: seq<(K, V)>)
    ensures Enumerates(amounts, pairs)
  {
    pairs := [];
    var rest := amounts.Keys;
    while rest != {}
      invariant rest <= amounts.Keys
      invariant forall i :: 0 <= i < |pairs| ==>
                  pairs[i].0 in amounts && pairs[i].0 !in rest && amounts[pairs[i].0] == pairs[i].1
      invariant forall k :: k in amounts && k !in rest ==> (k, amounts[k]) in pairs
      invariant forall i, j :: 0 <= i < j < |pairs| ==> pairs[i].0 != pairs[j].0
      decreases rest
    {
      var k :| k in rest;
      ghost var before := pairs;
      pairs := pairs + [(k, amounts[k])];
      rest := rest - {k};
      assert pairs[|before|] == (k, amounts[k]);
      assert forall p :: p in before ==> p in pairs;
    }
    forall k, a
      ensures (k, a) in pairs <==> k in amounts && amounts[k] == a
    {
      if (k, a) in pairs {
        var i :| 0 <= i < |pairs| && pairs[i] == (k, a);
      }
    }
  }

  ghost predicate SumsOfPrefix(claims: seq<SettlementClaim>, amounts: map<SettlementKey, u64>) {
    && (forall k :: k in amounts <==> HasKey(ClaimKey(), k, claims))
    && (forall k :: k in amounts ==> amounts[k] == KeySum(ClaimKey(), ClaimAmount(), k, claims))
  }

  lemma SumsOfLonger(claims: seq<SettlementClaim>, amounts: map<SettlementKey, u64>, c: SettlementClaim, sum: u64)
    requires SumsOfPrefix(claims, amounts)
    requires sum == KeySum(ClaimKey(), ClaimAmount(), KeyOf(c), claims) + c.claimAmount
    ensures SumsOfPrefix(claims + [c], amounts[KeyOf(c) := sum])
  {
    var longer := claims + [c];
    forall k
      ensures HasKey(ClaimKey(), k, longer) <==> HasKey(ClaimKey(), k, claims) || k == KeyOf(c)
      ensures KeySum(ClaimKey(), ClaimAmount(), k, longer)
           == KeySum(ClaimKey(), ClaimAmount(), k, claims) + if k == KeyOf(c) then c.claimAmount else 0
    {
      KeySumSnoc(ClaimKey(), ClaimAmount(), k, claims, c);
      assert c in longer && forall x :: x in longer <==> x in claims || x == c;
    }
  }

  /** `merged` holds each key of `claims` once, with the exact sum of its claims, in any order. */
  ghost predicate IsTally(claims: seq<SettlementClaim>, merged: seq<(SettlementKey, u64)>) {
    && (forall i, j :: 0 <= i < j < |merged| ==> merged[i].0 != merged[j].0)
    && (forall m :: m in merged ==>
          HasKey(ClaimKey(), m.0, claims) && m.1 == KeySum(ClaimKey(), ClaimAmount(), m.0, claims))
    && (forall c :: c in claims ==> HasKey(MergedKey(), KeyOf(c), merged))
  }

  lemma EnumerationIsTally(claims: seq<SettlementClaim>, amounts: map<SettlementKey, u64>,
                           pairs: seq<(SettlementKey, u64)>)
    requires SumsOfPrefix(claims, amounts) && Enumerates(amounts, pairs)
    ensures IsTally(claims, pairs)
  {
    forall m | m in pairs
      ensures HasKey(ClaimKey(), m.0, claims) && m.1 == KeySum(ClaimKey(), ClaimAmount(), m.0, claims)
    {
      assert (m.0, m.1) in pairs;
    }
    forall c | c in claims
      ensures HasKey(MergedKey(), KeyOf(c), pairs)
    {
      assert ClaimKey()(c) == KeyOf(c);
      assert (KeyOf(c), amounts[KeyOf(c)]) in pairs;
    }
  }

  lemma KeySumOfPrefix(claims: seq<SettlementClaim>, i: nat)
    requires i < |claims|
    ensures var key := KeyOf(claims[i]);
            KeySum(ClaimKey(), ClaimAmount(), key, claims[..i]) + claims[i].claimAmount
            <= KeySum(ClaimKey(), ClaimAmount(), key, claims)
  {
    var key := KeyOf(claims[i]);
    KeySumSnoc(ClaimKey(), ClaimAmount(), key, claims[..i], claims[i]);
    assert claims[..i + 1] == claims[..i] + [claims[i]];
    KeySumPrefix(ClaimKey(), ClaimAmount(), key, claims, i + 1);
  }

  /** `merge_claims`: fails exactly when the claims of some key do not fit in 64 bits. */
  method MergeClaims(claims: seq<SettlementClaim>) returns (r: Result<seq<(SettlementKey, u64)>, GeneratorError>)
    ensures r.Success? ==> IsTally(claims, r.value)
    ensures r.Failure? <==> exists k :: KeySum(ClaimKey(), ClaimAmount(), k, claims) > U64_MAX
    ensures r.Failure? ==> r.error == AmountOverflow
  {
    var amountMap: map<SettlementKey, u64> := map[];
    for i := 0 to |claims|
      invariant SumsOfPrefix(claims[..i], amountMap)
    {
      var claim := claims[i];
      var key := KeyOf(claim);
      var held := if key in amountMap then amountMap[key] else 0;
      if key !in amountMap {
        KeySumAbsent(ClaimKey(), ClaimAmount(), key, claims[..i]);
      }
      assert claims[..i + 1] == claims[..i] + [claim];
      if held + claim.claimAmount > U64_MAX {
        KeySumOfPrefix(claims, i);
        assert KeySum(ClaimKey(), ClaimAmount(), key, claims) > U64_MAX;
        return Failure(AmountOverflow);
      }
      SumsOfLonger(claims[..i], amountMap, claim, held + claim.claimAmount);
      amountMap := amountMap[key := held + claim.claimAmount];
    }
    assert claims[..|claims|] == claims;
    var pairs := Collect(amountMap);
    EnumerationIsTally(claims, amountMap, pairs);
    forall k
      ensures KeySum(ClaimKey(), ClaimAmount(), k, claims) <= U64_MAX
    {
      if k !in amountMap {
        KeySumAbsent(ClaimKey(), ClaimAmount(), k, claims);
      }
    }
    r := Success(pairs);
  }

  // ------------------------------------------------------------------------ grouping

  ghost function InGroup(sts: seq<Settlement>, g: Group): seq<Settlement> {
    if sts == [] then [] else
    InGroup(sts[..|sts| - 1], g) + if GroupOf(sts[|sts| - 1]) == g then [sts[|sts| - 1]] else []
  }

  ghost predicate IsGrouped(sts: seq<Settlement>, grouped: map<Group, seq<Settlement>>) {
    && (forall g :: g in grouped <==> exists st :: st in sts && GroupOf(st) == g)
    && (forall g :: g in grouped ==> grouped[g] == InGroup(sts, g))
  }

  lemma {:induction false} InGroupAbsent(sts: seq<Settlement>, g: Group)
    requires forall st :: st in sts ==> GroupOf(st) != g
    ensures InGroup(sts, g) == []
  {
    if sts != [] {
      assert sts[|sts| - 1] in sts;
      InGroupAbsent(sts[..|sts| - 1], g);
    }
  }

  lemma GroupOneMore(sts: seq<Settlement>, grouped: map<Group, seq<Settlement>>, st: Settlement)
    requires IsGrouped(sts, grouped)
    ensures var g := GroupOf(st);
            IsGrouped(sts + [st], grouped[g := (if g in grouped then grouped[g] else []) + [st]])
  {
    var longer := sts + [st];
    assert longer[..|longer| - 1] == sts;
    if GroupOf(st) !in grouped {
      InGroupAbsent(sts, GroupOf(st));
    }
    forall g
      ensures InGroup(longer, g) == InGroup(sts, g) + if GroupOf(st) == g then [st] else []
      ensures (exists x :: x in longer && GroupOf(x) == g)
         <==> (exists x :: x in sts && GroupOf(x) == g) || GroupOf(st) == g
    {
      assert st in longer && forall x :: x in longer <==> x in sts || x == st;
    }
  }

  /** The loops that fill `grouped_settlements`. */
  method GroupSettlements(sources: seq<SettlementSource>) returns (grouped: map<Group, seq<Settlement>>)
    ensures IsGrouped(SettlementsOf(sources), grouped)
  {
    grouped := map[];
    for i := 0 to |sources|
      invariant IsGrouped(SettlementsOf(sources[..i]), grouped)
    {
      var settlements := sources[i].collection.settlements;
      ghost var done := SettlementsOf(sources[..i]);
      assert done + settlements[..0] == done;
      for j := 0 to |settlements|
        invariant IsGrouped(done + settlements[..j], grouped)
      {
        var st := settlements[j];
        var g := GroupOf(st);
        GroupOneMore(done + settlements[..j], grouped, st);
        assert done + settlements[..j] + [st] == done + settlements[..j + 1];
        grouped := grouped[g := (if g in grouped then grouped[g] else []) + [st]];
      }
      FlatMapSnoc(SourceSettlements(), sources[..i], sources[i]);
      assert sources[..i + 1] == sources[..i] + [sources[i]];
      assert settlements[..|settlements|] == settlements;
    }
    assert sources[..|sources|] == sources;
  }

  function SettlementClaims(): Settlement -> seq<SettlementClaim> {
    (st: Settlement) => st.claims
  }

  /** `claims` carry, for key `k`, what `entries` carry for key `k` of group `g`. */
  ghost predicate SameSums(entries: seq<Entry>, claims: seq<SettlementClaim>, g: Group, k: SettlementKey) {
    && KeySum(EntryKey(), EntryAmount(), (g, k), entries) == KeySum(ClaimKey(), ClaimAmount(), k, claims)
    && GroupTotal(entries, g) == Sum(ClaimAmount(), claims)
    && (HasKey(EntryKey(), (g, k), entries) <==> HasKey(ClaimKey(), k, claims))
  }

  lemma SameSumsConcat(es: seq<Entry>, cs: seq<SettlementClaim>, es': seq<Entry>, cs': seq<SettlementClaim>,
                       g: Group, k: SettlementKey)
    requires SameSums(es, cs, g, k) && SameSums(es', cs', g, k)
    ensures SameSums(es + es', cs + cs', g, k)
  {
    KeySumConcat(EntryKey(), EntryAmount(), (g, k), es, es');
    KeySumConcat(EntryGroup(), EntryAmount(), g, es, es');
    HasKeyConcat(EntryKey(), (g, k), es, es');
    KeySumConcat(ClaimKey(), ClaimAmount(), k, cs, cs');
    SumConcat(ClaimAmount(), cs, cs');
    HasKeyConcat(ClaimKey(), k, cs, cs');
  }

  lemma {:induction false} ClaimsAndEntries(claims: seq<SettlementClaim>, entries: seq<Entry>, g: Group, h: Group,
                                            k: SettlementKey)
    requires |claims| == |entries|
    requires forall i :: 0 <= i < |claims| ==> entries[i] == Entry(h, KeyOf(claims[i]), claims[i].claimAmount)
    ensures SameSums(entries, if g == h then claims else [], g, k)
  {
    if claims != [] {
      var claims', entries' := claims[1..], entries[1..];
      assert forall i :: 0 <= i < |claims'| ==> claims'[i] == claims[i + 1] && entries'[i] == entries[i + 1];
      ClaimsAndEntries(claims', entries', g, h, k);
      HasKeyCons(EntryKey(), (g, k), entries);
      HasKeyCons(ClaimKey(), k, claims);
    }
  }

  lemma HasKeyCons<T, K>(key: T -> K, k: K, xs: seq<T>)
    requires xs != []
    ensures HasKey(key, k, xs) <==> key(xs[0]) == k || HasKey(key, k, xs[1..])
  {
    assert xs == [xs[0]] + xs[1..];
    assert xs[0] in xs;
  }

  lemma HasKeyConcat<T, K>(key: T -> K, k: K, xs: seq<T>, ys: seq<T>)
    ensures HasKey(key, k, xs + ys) <==> HasKey(key, k, xs) || HasKey(key, k, ys)
  {
  }

  lemma GroupClaimsSnoc(front: seq<Settlement>, st: Settlement, g: Group)
    ensures FlatMap(SettlementClaims(), InGroup(front + [st], g))
         == FlatMap(SettlementClaims(), InGroup(front, g)) + if g == GroupOf(st) then st.claims else []
  {
    var sts := front + [st];
    assert sts[..|sts| - 1] == front;
    assert InGroup(front, g) + [] == InGroup(front, g);
    FlatMapSnoc(SettlementClaims(), InGroup(front, g), st);
  }

  /** The claims collected for a group carry the sums of the group's entries. */
  lemma {:induction false} GroupClaims(sts: seq<Settlement>, g: Group, k: SettlementKey)
    ensures SameSums(EntriesOf(sts), FlatMap(SettlementClaims(), InGroup(sts, g)), g, k)
  {
    if sts != [] {
      var front, st := sts[..|sts| - 1], sts[|sts| - 1];
      var added := SettlementEntries()(st);
      var claims := if g == GroupOf(st) then st.claims else [];
      assert SameSums(EntriesOf(sts), FlatMap(SettlementClaims(), InGroup(sts, g)), g, k) by {
        GroupClaims(front, g, k);
        ClaimsAndEntries(st.claims, added, g, GroupOf(st), k);
        SameSumsConcat(EntriesOf(front), FlatMap(SettlementClaims(), InGroup(front, g)), added, claims, g, k);
        assert sts == front + [st];
        GroupClaimsSnoc(front, st, g);
        FlatMapSnoc(SettlementEntries(), front, st);
      }
    }
  }

  // ------------------------------------------------------------------- building one tree

  function KeysOf(merged: seq<(SettlementKey, u64)>): seq<SettlementKey> {
    seq(|merged|, i requires 0 <= i < |merged| => merged[i].0)
  }

  /** Merging neither loses nor invents lamports. */
  lemma MergedTotal(claims: seq<SettlementClaim>, merged: seq<(SettlementKey, u64)>)
    requires IsTally(claims, merged)
    ensures Sum(MergedAmount(), merged) == Sum(ClaimAmount(), claims)
  {
    var ks := KeysOf(merged);
    forall i | 0 <= i < |merged|
      ensures merged[i].1 == KeySum(ClaimKey(), ClaimAmount(), ks[i], claims)
    {
      assert merged[i] in merged;
    }
    SumCongruence(MergedAmount(), merged, KeySums(ClaimKey(), ClaimAmount(), claims), ks);
    forall c | c in claims
      ensures ClaimKey()(c) in ks
    {
      var m :| m in merged && MergedKey()(m) == KeyOf(c);
      var i :| 0 <= i < |merged| && merged[i] == m;
      assert ks[i] == KeyOf(c);
    }
    SumByKey(ClaimKey(), ClaimAmount(), ks, claims);
  }

  /** The checked sum of `max_total_claim_sum`. */
  method SumAmounts(merged: seq<(SettlementKey, u64)>) returns (r: Option<u64>)
    ensures r == if Sum(MergedAmount(), merged) <= U64_MAX then Some(Sum(MergedAmount(), merged)) else None
  {
    var sum: u64 := 0;
    for i := 0 to |merged|
      invariant sum == Sum(MergedAmount(), merged[..i])
    {
      assert merged[..i + 1] == merged[..i] + [merged[i]];
      SumSnoc(MergedAmount(), merged[..i], merged[i]);
      if sum + merged[i].1 > U64_MAX {
        assert merged == merged[..i + 1] + merged[i + 1..];
        SumConcat(MergedAmount(), merged[..i + 1], merged[i + 1..]);
        SumNonNegative(MergedAmount(), merged[i + 1..]);
        return None;
      }
      sum := sum + merged[i].1;
    }
    assert merged[..|merged|] == merged;
    r := Some(sum);
  }

  /** Sorting the tally of a group's claims gives the group's merged list. */
  lemma SortedTallyIsMerged(entries: seq<Entry>, g: Group, claims: seq<SettlementClaim>,
                            tally: seq<(SettlementKey, u64)>)
    requires IsTally(claims, tally) && forall k :: SameSums(entries, claims, g, k)
    ensures IsMerged(entries, g, Sort(MergedLe(), tally))
  {
    var merged := Sort(MergedLe(), tally);
    MergedSortStrict(tally);
    SortElements(MergedLe(), tally);
    forall m | m in merged
      ensures HasKey(EntryKey(), (g, m.0), entries) && m.1 == KeySum(EntryKey(), EntryAmount(), (g, m.0), entries)
    {
      assert SameSums(entries, claims, g, m.0);
    }
    forall e | e in entries && e.group == g
      ensures HasKey(MergedKey(), e.key, merged)
    {
      assert SameSums(entries, claims, g, e.key);
      assert EntryKey()(e) == (g, e.key);
      var c :| c in claims && ClaimKey()(c) == e.key;
      var m :| m in tally && MergedKey()(m) == e.key;
      assert m in merged;
    }
  }

  /** Enumerating the merged claims into nodes. */
  function NodesOf(merged: seq<(SettlementKey, u64)>): seq<TreeNode> {
    seq(|merged|, i requires 0 <= i < |merged| => NodeAt(merged, i))
  }

  /** The nodes with their proofs, up to node `i`. */
  ghost predicate Attached(s: Scheme, leaves: seq<Hash>, merged: seq<(SettlementKey, u64)>, nodes: seq<TreeNode>,
                           i: nat)
    requires |leaves| == |merged|
  {
    && |nodes| == |merged| && i <= |merged|
    && (forall j :: i <= j < |merged| ==> nodes[j] == NodeAt(merged, j))
    && (forall j :: 0 <= j < i ==>
          && nodes[j].proof.Some?
          && nodes[j] == NodeAt(merged, j).(proof := nodes[j].proof)
          && IsProofOf(s, leaves, j, nodes[j].proof.value))
  }

  /** The loop that writes the proofs into the nodes. */
  method AttachProofs(env: Env, mt: MerkleTree, merged: seq<(SettlementKey, u64)>) returns (nodes: seq<TreeNode>)
    requires Built(TreeScheme(env), LeavesOf(env, NodesOf(merged)), mt)
    ensures Attached(TreeScheme(env), LeavesOf(env, NodesOf(merged)), merged, nodes, |merged|)
  {
    ghost var s, leaves := TreeScheme(env), LeavesOf(env, NodesOf(merged));
    nodes := NodesOf(merged);
    for i := 0 to |merged|
      invariant Attached(s, leaves, merged, nodes, i)
    {
      var proof := GetProof(mt, i);
      StoredProof(s, leaves, mt, i, proof);
      nodes := nodes[i := nodes[i].(proof := Some(proof))];
    }
  }

  /** The hash of a node does not cover its proof. */
  lemma ItemsIgnoreProofs(env: Env, a: seq<TreeNode>, b: seq<TreeNode>)
    requires |a| == |b| && forall i :: 0 <= i < |a| ==> SameLeaf(a[i], b[i])
    ensures Items(env, a) == Items(env, b)
  {
    forall i | 0 <= i < |a|
      ensures Items(env, a)[i] == Items(env, b)[i]
    {
      EncodeInjective(a[i], b[i]);
    }
  }

  lemma AttachedNodes(env: Env, merged: seq<(SettlementKey, u64)>, t: MerkleTreeMeta)
    requires Attached(TreeScheme(env), LeavesOf(env, NodesOf(merged)), merged, t.treeNodes, |merged|)
    ensures MergedOf(t) == merged
    ensures LeavesOf(env, t.treeNodes) == LeavesOf(env, NodesOf(merged))
  {
    ItemsIgnoreProofs(env, t.treeNodes, NodesOf(merged));
  }

  /** The body of the loop over groups: no tree for a group without claims, a panic exactly when the group's
      total does not fit in 64 bits. */
  method BuildTree(env: Env, epoch: u64, g: Group, claims: seq<SettlementClaim>, ghost entries: seq<Entry>)
    returns (r: Result<Option<MerkleTreeMeta>, GeneratorError>)
    requires forall k :: SameSums(entries, claims, g, k)
    ensures r.Failure? <==> GroupTotal(entries, g) > U64_MAX
    ensures r.Failure? ==> r.error == AmountOverflow
    ensures r == Success(None) <==> claims == []
    ensures r.Success? && r.value.Some? ==> IsTreeFor(env, epoch, entries, g, r.value.value)
  {
    ghost var anyKey: SettlementKey :| true;
    assert SameSums(entries, claims, g, anyKey);
    var tally := MergeClaims(claims);
    if tally.Failure? {
      ghost var k :| KeySum(ClaimKey(), ClaimAmount(), k, claims) > U64_MAX;
      KeySumBounds(ClaimKey(), ClaimAmount(), k, claims);
      return Failure(AmountOverflow);
    }
    MergedTotal(claims, tally.value);
    SortedTallyIsMerged(entries, g, claims, tally.value);
    SortMultiset(MergedLe(), tally.value);
    SortElements(MergedLe(), tally.value);
    SumPermutation(MergedAmount(), tally.value, Sort(MergedLe(), tally.value));
    var merged := Sort(MergedLe(), tally.value);
    var treeNodes := NodesOf(merged);
    var sum := SumAmounts(merged);
    if sum.None? {
      return Failure(AmountOverflow);
    }
    var maxTotalClaims := |treeNodes|;
    TallyEmpty(claims, tally.value);
    if maxTotalClaims == 0 {
      return Success(None);
    }
    var t := MakeTree(env, epoch, g, merged, sum.value);
    r := Success(Some(t));
  }

  lemma TallyEmpty(claims: seq<SettlementClaim>, tally: seq<(SettlementKey, u64)>)
    requires IsTally(claims, tally)
    ensures claims == [] <==> tally == []
  {
    if claims != [] {
      assert claims[0] in claims;
    }
    if tally != [] {
      assert tally[0] in tally;
    }
  }

  /** From the sorted merged claims to the finished tree. */
  method MakeTree(env: Env, epoch: u64, g: Group, merged: seq<(SettlementKey, u64)>, sum: u64)
    returns (t: MerkleTreeMeta)
    requires merged != [] && sum == Sum(MergedAmount(), merged)
    ensures IsTree(env, epoch, g, t) && MergedOf(t) == merged
  {
    var bondAccount := env.bondAddress(env.validatorBondsConfig, g.voteAccount);
    var merkleTree := New(TreeScheme(env), Items(env, NodesOf(merged)));
    var treeNodes := AttachProofs(env, merkleTree, merged);
    var merkleRoot := merkleTree.GetRoot();
    GetRootIsRoot(TreeScheme(env), LeavesOf(env, NodesOf(merged)), merkleTree);
    // a tree with leaves has a root, so the error for a missing root cannot occur
    var settlementAccount := env.settlementAddress(bondAccount, merkleRoot.value, epoch);
    t := MerkleTreeMeta(merkleRoot, sum, |treeNodes|, g.voteAccount, bondAccount, settlementAccount,
                        map[g.funder := sum], treeNodes);
    AttachedNodes(env, merged, t);
  }

  // ------------------------------------------------------------------- the whole collection

  function GroupOfTree(t: MerkleTreeMeta): Group {
    Group(t.voteAccount, FirstFunder(t.fundingSources).GetOr(ValidatorBond))
  }

  /** One fitting tree for each group of `groups` that has an entry, and no other tree. */
  ghost predicate Generated(fits: (Group, MerkleTreeMeta) -> bool, entries: seq<Entry>, groups: set<Group>,
                            trees: seq<MerkleTreeMeta>) {
    && (forall i :: 0 <= i < |trees| ==> GroupOfTree(trees[i]) in groups && fits(GroupOfTree(trees[i]), trees[i]))
    && (forall i, j :: 0 <= i < j < |trees| ==> GroupOfTree(trees[i]) != GroupOfTree(trees[j]))
    && (forall e :: e in entries && e.group in groups ==> exists t :: t in trees && fits(e.group, t))
  }

  lemma TreeForItsGroup(env: Env, epoch: u64, g: Group, t: MerkleTreeMeta)
    requires IsTree(env, epoch, g, t)
    ensures GroupOfTree(t) == g && FirstFunder(t.fundingSources) == Some(g.funder)
  {
    if g.funder == Marinade {
      assert ValidatorBond !in t.fundingSources;
    }
  }

  lemma GenerateOneMore(fits: (Group, MerkleTreeMeta) -> bool, entries: seq<Entry>, groups: set<Group>,
                        trees: seq<MerkleTreeMeta>, g: Group, t: Option<MerkleTreeMeta>)
    requires Generated(fits, entries, groups, trees) && g !in groups
    requires t.Some? ==> fits(g, t.value) && GroupOfTree(t.value) == g
    requires t.None? ==> forall e :: e in entries ==> e.group != g
    ensures Generated(fits, entries, groups + {g}, if t.Some? then trees + [t.value] else trees)
  {
    if t.Some? {
      assert t.value in trees + [t.value] && forall u :: u in trees ==> u in trees + [t.value];
    }
  }

  lemma {:induction false} GroupSeen(sts: seq<Settlement>, e: Entry)
    requires e in EntriesOf(sts)
    ensures exists st :: st in sts && GroupOf(st) == e.group
  {
    FlatMapMembers(SettlementEntries(), sts, e);
    var st :| st in sts && e in SettlementEntries()(st);
  }

  lemma MetaLeTotalPreorder()
    ensures TotalPreorder(MetaLe())
  {
    var le := MetaLe();
    forall a, b
      ensures le(a, b) || le(b, a)
    {
      LexTotal(a.voteAccount, b.voteAccount);
    }
    forall a, b, c | le(a, b) && le(b, c)
      ensures le(a, c)
    {
      if a.voteAccount != b.voteAccount && b.voteAccount != c.voteAccount {
        LexStrictTransitive(a.voteAccount, b.voteAccount, c.voteAccount);
      }
    }
  }

  /** Trees that tie in the output order have the same vote account and funder. */
  lemma MetaLeStrict(t: MerkleTreeMeta, u: MerkleTreeMeta)
    requires MetaLe()(t, u) && MetaLe()(u, t)
    ensures SortKeyOf(t) == SortKeyOf(u)
  {
    if t.voteAccount != u.voteAccount {
      LexAntisymmetric(t.voteAccount, u.voteAccount);
    }
  }

  /** The final sort leaves no order to chance. */
  lemma SortedTreesAreOnePerGroup(fits: (Group, MerkleTreeMeta) -> bool, entries: seq<Entry>, groups: set<Group>,
                                  trees: seq<MerkleTreeMeta>)
    requires Generated(fits, entries, groups, trees)
    requires forall g, t :: fits(g, t) ==> FirstFunder(t.fundingSources).Some?
    requires forall e :: e in entries ==> e.group in groups
    ensures OnePerGroup(fits, entries, Sort(MetaLe(), trees))
  {
    var out := Sort(MetaLe(), trees);
    SortElements(MetaLe(), trees);
    GeneratedSortStrict(fits, entries, groups, trees);
    forall t | t in out
      ensures exists g :: fits(g, t)
    {
      var k :| 0 <= k < |trees| && trees[k] == t;
      assert fits(GroupOfTree(trees[k]), t);
    }
  }

  lemma GeneratedSortStrict(fits: (Group, MerkleTreeMeta) -> bool, entries: seq<Entry>, groups: set<Group>,
                            trees: seq<MerkleTreeMeta>)
    requires Generated(fits, entries, groups, trees)
    requires forall g, t :: fits(g, t) ==> FirstFunder(t.fundingSources).Some?
    ensures StrictlySorted(MetaLe(), Sort(MetaLe(), trees))
  {
    MetaLeTotalPreorder();
    forall t, u | MetaLe()(t, u) && MetaLe()(u, t)
      ensures SortKeyOf(t) == SortKeyOf(u)
    {
      MetaLeStrict(t, u);
    }
    forall i, j | 0 <= i < j < |trees|
      ensures SortKeyOf(trees[i]) != SortKeyOf(trees[j])
    {
      assert GroupOfTree(trees[i]) != GroupOfTree(trees[j]);
    }
    SortStrict(MetaLe(), (a, b) => true, MetaLe(), t => SortKeyOf(t), trees);
  }

  function SortKeyOf(t: MerkleTreeMeta): (Pubkey, Option<SettlementFunder>) {
    (t.voteAccount, FirstFunder(t.fundingSources))
  }

  /** One group of the loop, whose claims are collected from its settlements. */
  method BuildGroup(env: Env, epoch: u64, g: Group, settlements: seq<Settlement>, ghost sts: seq<Settlement>)
    returns (r: Result<Option<MerkleTreeMeta>, GeneratorError>)
    requires settlements == InGroup(sts, g)
    ensures r.Failure? <==> GroupTotal(EntriesOf(sts), g) > U64_MAX
    ensures r.Failure? ==> r.error == AmountOverflow
    ensures r.Success? && r.value.None? ==> forall e :: e in EntriesOf(sts) ==> e.group != g
    ensures r.Success? && r.value.Some? ==>
              && TreeTest(env, epoch, EntriesOf(sts))(g, r.value.value)
              && GroupOfTree(r.value.value) == g
  {
    var claims := FlatMap(SettlementClaims(), settlements);
    forall k
      ensures SameSums(EntriesOf(sts), claims, g, k)
    {
      GroupClaims(sts, g, k);
    }
    r := BuildTree(env, epoch, g, claims, EntriesOf(sts));
    if r.Success? && r.value.None? {
      GroupWithoutClaims(EntriesOf(sts), g);
    } else if r.Success? {
      TreeForItsGroup(env, epoch, g, r.value.value);
    }
  }

  lemma FittingTreeHasFunder(env: Env, epoch: u64, entries: seq<Entry>)
    ensures forall g, t :: TreeTest(env, epoch, entries)(g, t) ==> FirstFunder(t.fundingSources).Some?
  {
    forall g, t | IsTreeFor(env, epoch, entries, g, t)
      ensures FirstFunder(t.fundingSources).Some?
    {
      TreeForItsGroup(env, epoch, g, t);
    }
  }

  lemma TotalsBounded(sts: seq<Settlement>, done: set<Group>)
    requires forall st :: st in sts ==> GroupOf(st) in done
    requires forall g :: g in done ==> GroupTotal(EntriesOf(sts), g) <= U64_MAX
    ensures forall e :: e in EntriesOf(sts) ==> e.group in done
    ensures forall g :: GroupTotal(EntriesOf(sts), g) <= U64_MAX
  {
    forall e | e in EntriesOf(sts)
      ensures EntryGroup()(e) in done
    {
      GroupSeen(sts, e);
    }
    forall g
      ensures GroupTotal(EntriesOf(sts), g) <= U64_MAX
    {
      if g !in done {
        KeySumAbsent(EntryGroup(), EntryAmount(), g, EntriesOf(sts));
      }
    }
  }

  /** The loop over groups, which the hash map may present in any order. */
  method BuildGroups(env: Env, epoch: u64, ghost sts: seq<Settlement>, grouped: map<Group, seq<Settlement>>)
    returns (r: Result<seq<MerkleTreeMeta>, GeneratorError>)
    requires IsGrouped(sts, grouped)
    ensures r.Failure? ==> r.error == AmountOverflow && exists g :: GroupTotal(EntriesOf(sts), g) > U64_MAX
    ensures r.Success? ==> Generated(TreeTest(env, epoch, EntriesOf(sts)), EntriesOf(sts), grouped.Keys, r.value)
    ensures r.Success? ==> forall g :: g in grouped ==> GroupTotal(EntriesOf(sts), g) <= U64_MAX
  {
    ghost var entries := EntriesOf(sts);
    ghost var fits := TreeTest(env, epoch, entries);
    var merkleTrees: seq<MerkleTreeMeta> := [];
    var rest := grouped.Keys;
    ghost var done: set<Group> := {};
    while rest != {}
      invariant done + rest == grouped.Keys && done !! rest
      invariant Generated(fits, entries, done, merkleTrees)
      invariant forall g :: g in done ==> GroupTotal(entries, g) <= U64_MAX
      decreases rest
    {
      var g :| g in rest;
      var built := BuildGroup(env, epoch, g, grouped[g], sts);
      if built.Failure? {
        return Failure(AmountOverflow);
      }
      GenerateOneMore(fits, entries, done, merkleTrees, g, built.value);
      if built.value.Some? {
        merkleTrees := merkleTrees + [built.value.value];
      }
      rest := rest - {g};
      done := done + {g};
    }
    assert done == grouped.Keys;
    r := Success(merkleTrees);
  }

  /** All trees, sorted. */
  method TreesOf(env: Env, epoch: u64, ghost sts: seq<Settlement>, grouped: map<Group, seq<Settlement>>)
    returns (r: Result<seq<MerkleTreeMeta>, GeneratorError>)
    requires IsGrouped(sts, grouped)
    ensures r.Failure? <==> exists g :: GroupTotal(EntriesOf(sts), g) > U64_MAX
    ensures r.Failure? ==> r.error == AmountOverflow
    ensures r.Success? ==> IsCollection(env, epoch, EntriesOf(sts), r.value)
  {
    ghost var entries := EntriesOf(sts);
    r := BuildGroups(env, epoch, sts, grouped);
    if r.Success? {
      TotalsBounded(sts, grouped.Keys);
      FittingTreeHasFunder(env, epoch, entries);
      SortedTreesAreOnePerGroup(TreeTest(env, epoch, entries), entries, grouped.Keys, r.value);
      r := Success(Sort(MetaLe(), r.value));
    }
  }

  lemma GroupWithoutClaims(entries: seq<Entry>, g: Group)
    requires forall k :: SameSums(entries, [], g, k)
    ensures forall e :: e in entries ==> e.group != g
  {
    forall e | e in entries
      ensures e.group != g
    {
      assert SameSums(entries, [], g, e.key);
      assert EntryKey()(e) == (e.group, e.key);
      assert HasKey(EntryKey(), (e.group, e.key), entries);
      assert !HasKey(ClaimKey(), e.key, []);
    }
  }
}
