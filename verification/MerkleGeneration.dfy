/** The whole generator: what its trees hold, in terms of the claims in the sources, and its independence of every
    order in the input. */
module MerkleGeneration {
  import opened Wrappers
  import opened Bytes
  import opened Sums
  import opened Sorting
  import opened MerkleTrees
  import opened MerkleProofs
  import opened TreeNodes
  import opened SettlementCollections
  import opened MerkleGenerator
  import opened MerkleGeneratorProperties

  // --------------------------------------------------------- what the sources claim

  predicate IsClaimOf(c: SettlementClaim, withdraw: Pubkey, stake: Pubkey) {
    c.withdrawAuthority == withdraw && c.stakeAuthority == stake
  }

  function ClaimedBy(withdraw: Pubkey, stake: Pubkey): SettlementClaim -> int {
    (c: SettlementClaim) => if IsClaimOf(c, withdraw, stake) then c.claimAmount else 0
  }

  function InSettlement(vote: Pubkey, funder: SettlementFunder, withdraw: Pubkey, stake: Pubkey): Settlement -> int {
    (st: Settlement) =>
      if st.voteAccount == vote && st.funder == funder then Sum(ClaimedBy(withdraw, stake), st.claims) else 0
  }

  /** The lamports that a source has for these authorities in settlements of `vote` and `funder`. */
  function InSource(vote: Pubkey, funder: SettlementFunder, withdraw: Pubkey, stake: Pubkey): SettlementSource -> int {
    (source: SettlementSource) => Sum(InSettlement(vote, funder, withdraw, stake), source.collection.settlements)
  }

  ghost predicate HasClaimIn(st: Settlement, vote: Pubkey, funder: SettlementFunder, withdraw: Pubkey, stake: Pubkey) {
    st.voteAccount == vote && st.funder == funder && exists c :: c in st.claims && IsClaimOf(c, withdraw, stake)
  }

  /** Some source has a claim for these authorities in a settlement of `vote` and `funder`. */
  ghost predicate IsClaimed(sources: seq<SettlementSource>, vote: Pubkey, funder: SettlementFunder, withdraw: Pubkey,
                            stake: Pubkey) {
    exists source, st :: source in sources && st in source.collection.settlements
      && HasClaimIn(st, vote, funder, withdraw, stake)
  }

  function AnyClaim(): SettlementClaim -> int {
    (c: SettlementClaim) => c.claimAmount
  }

  function SettlementTotal(vote: Pubkey, funder: SettlementFunder): Settlement -> int {
    (st: Settlement) => if st.voteAccount == vote && st.funder == funder then Sum(AnyClaim(), st.claims) else 0
  }

  function SourceTotal(vote: Pubkey, funder: SettlementFunder): SettlementSource -> int {
    (source: SettlementSource) => Sum(SettlementTotal(vote, funder), source.collection.settlements)
  }

  // ------------------------------------------------------------- what a tree holds

  /** The hash that stands for a node at the bottom of the tree: of a zero byte and the hash of the node's string. */
  ghost predicate IsLeafOf(digest: seq<byte> -> Hash, node: TreeNode, leaf: Hash) {
    exists bytes :: IsLayout(bytes, node) && leaf == digest([0] + digest(bytes))
  }

  /** Folding a proof, sibling by sibling. */
  function FoldProof(digest: seq<byte> -> Hash, leaf: Hash, proof: seq<Hash>): Hash {
    if proof == [] then leaf
    else PairHash(digest, true, FoldProof(digest, leaf, proof[..|proof| - 1]), proof[|proof| - 1])
  }

  function NodeClaim(): TreeNode -> int {
    (node: TreeNode) => node.claim
  }

  /** The node pays what its authorities claim in all sources together, and can be claimed against the root. */
  ghost predicate PaysNode(digest: seq<byte> -> Hash, sources: seq<SettlementSource>, funder: SettlementFunder,
                           t: MerkleTreeMeta, i: nat)
    requires i < |t.treeNodes|
  {
    var node := t.treeNodes[i];
    && IsClaimed(sources, t.voteAccount, funder, node.withdrawAuthority, node.stakeAuthority)
    && node.claim == Sum(InSource(t.voteAccount, funder, node.withdrawAuthority, node.stakeAuthority), sources)
    && node.index == i % 0x1_0000_0000_0000_0000
    && node.proof.Some?
    && exists leaf :: IsLeafOf(digest, node, leaf) && t.merkleRoot == Some(FoldProof(digest, leaf, node.proof.value))
  }

  /** The root over the leaves of the nodes, level by level. */
  ghost predicate IsRootOf(digest: seq<byte> -> Hash, nodes: seq<TreeNode>, root: Hash) {
    exists leaves: seq<Hash> :: |leaves| == |nodes| > 0 && root == FoldLevels(digest, true, leaves)
      && forall i :: 0 <= i < |nodes| ==> IsLeafOf(digest, nodes[i], leaves[i])
  }

  ghost predicate HasNode(t: MerkleTreeMeta, withdraw: Pubkey, stake: Pubkey) {
    exists node :: node in t.treeNodes && node.withdrawAuthority == withdraw && node.stakeAuthority == stake
  }

  /** The tree of one vote account and funder: one node for each pair of authorities with a claim, by their bytes, with
      the totals, accounts and root that go with them. */
  ghost predicate PaysTree(env: Env, epoch: u64, sources: seq<SettlementSource>, funder: SettlementFunder,
                           t: MerkleTreeMeta) {
    && (forall i :: 0 <= i < |t.treeNodes| ==> PaysNode(env.digest, sources, funder, t, i))
    && (forall i, j :: 0 <= i < j < |t.treeNodes| ==>
          var x, y := t.treeNodes[i].withdrawAuthority + t.treeNodes[i].stakeAuthority,
                      t.treeNodes[j].withdrawAuthority + t.treeNodes[j].stakeAuthority;
          x != y && LexLe(x, y))
    && (forall withdraw, stake :: IsClaimed(sources, t.voteAccount, funder, withdraw, stake) ==>
          HasNode(t, withdraw, stake))
    && t.maxTotalClaims == |t.treeNodes| && t.maxTotalClaimSum == Sum(NodeClaim(), t.treeNodes)
    && t.fundingSources == map[funder := t.maxTotalClaimSum]
    && t.bondAccount == env.bondAddress(env.validatorBondsConfig, t.voteAccount)
    && t.merkleRoot.Some? && IsRootOf(env.digest, t.treeNodes, t.merkleRoot.value)
    && t.settlementAccount == env.settlementAddress(t.bondAccount, t.merkleRoot.value, epoch)
  }

  ghost predicate TreePrecedes(t: MerkleTreeMeta, u: MerkleTreeMeta) {
    if t.voteAccount != u.voteAccount then LexLe(t.voteAccount, u.voteAccount)
    else t.fundingSources.Keys == {ValidatorBond} && u.fundingSources.Keys == {Marinade}
  }

  /** The collection: a tree for each vote account and funder with a claim in some source, in order. */
  ghost predicate PaysClaims(env: Env, epoch: u64, sources: seq<SettlementSource>, trees: seq<MerkleTreeMeta>) {
    && (forall t :: t in trees ==> exists funder :: PaysTree(env, epoch, sources, funder, t))
    && (forall vote, funder, withdraw, stake :: IsClaimed(sources, vote, funder, withdraw, stake) ==>
          exists t :: t in trees && t.voteAccount == vote && funder in t.fundingSources)
    && (forall i, j :: 0 <= i < j < |trees| ==> TreePrecedes(trees[i], trees[j]))
  }

  // ---------------------------------------------------------------------- proofs

  lemma {:induction false} SettlementEntriesSum(st: Settlement, claims: seq<SettlementClaim>, vote: Pubkey,
                                                funder: SettlementFunder, withdraw: Pubkey, stake: Pubkey)
    ensures var part := st.(claims := claims);
            KeySum(EntryKey(), EntryAmount(), (Group(vote, funder), SettlementKey(withdraw, stake)),
                   SettlementEntries()(part))
            == InSettlement(vote, funder, withdraw, stake)(part)
  {
    if claims != [] {
      var part, rest := st.(claims := claims), st.(claims := claims[1..]);
      SettlementEntriesSum(st, claims[1..], vote, funder, withdraw, stake);
      assert SettlementEntries()(part)[1..] == SettlementEntries()(rest);
    }
  }

  lemma {:induction false} EntriesSum(sts: seq<Settlement>, vote: Pubkey, funder: SettlementFunder, withdraw: Pubkey,
                                      stake: Pubkey)
    ensures KeySum(EntryKey(), EntryAmount(), (Group(vote, funder), SettlementKey(withdraw, stake)), EntriesOf(sts))
         == Sum(InSettlement(vote, funder, withdraw, stake), sts)
  {
    if sts != [] {
      EntriesSum(sts[1..], vote, funder, withdraw, stake);
      SettlementEntriesSum(sts[0], sts[0].claims, vote, funder, withdraw, stake);
      assert sts[0].(claims := sts[0].claims) == sts[0];
      KeySumConcat(EntryKey(), EntryAmount(), (Group(vote, funder), SettlementKey(withdraw, stake)),
                   SettlementEntries()(sts[0]), EntriesOf(sts[1..]));
    }
  }

  lemma SourcesSum(sources: seq<SettlementSource>, vote: Pubkey, funder: SettlementFunder, withdraw: Pubkey,
                   stake: Pubkey)
    ensures KeySum(EntryKey(), EntryAmount(), (Group(vote, funder), SettlementKey(withdraw, stake)), Entries(sources))
         == Sum(InSource(vote, funder, withdraw, stake), sources)
  {
    EntriesSum(SettlementsOf(sources), vote, funder, withdraw, stake);
    SumFlatMap(InSettlement(vote, funder, withdraw, stake), SourceSettlements(),
               InSource(vote, funder, withdraw, stake), sources);
  }

  lemma {:induction false} SettlementEntriesTotal(st: Settlement, claims: seq<SettlementClaim>, vote: Pubkey,
                                                  funder: SettlementFunder)
    ensures var part := st.(claims := claims);
            GroupTotal(SettlementEntries()(part), Group(vote, funder)) == SettlementTotal(vote, funder)(part)
  {
    if claims != [] {
      var part, rest := st.(claims := claims), st.(claims := claims[1..]);
      SettlementEntriesTotal(st, claims[1..], vote, funder);
      assert SettlementEntries()(part)[1..] == SettlementEntries()(rest);
    }
  }

  lemma {:induction false} EntriesTotal(sts: seq<Settlement>, vote: Pubkey, funder: SettlementFunder)
    ensures GroupTotal(EntriesOf(sts), Group(vote, funder)) == Sum(SettlementTotal(vote, funder), sts)
  {
    if sts != [] {
      EntriesTotal(sts[1..], vote, funder);
      SettlementEntriesTotal(sts[0], sts[0].claims, vote, funder);
      assert sts[0].(claims := sts[0].claims) == sts[0];
      KeySumConcat(EntryGroup(), EntryAmount(), Group(vote, funder), SettlementEntries()(sts[0]), EntriesOf(sts[1..]));
    }
  }

  lemma SourcesTotal(sources: seq<SettlementSource>, vote: Pubkey, funder: SettlementFunder)
    ensures GroupTotal(Entries(sources), Group(vote, funder)) == Sum(SourceTotal(vote, funder), sources)
  {
    EntriesTotal(SettlementsOf(sources), vote, funder);
    SumFlatMap(SettlementTotal(vote, funder), SourceSettlements(), SourceTotal(vote, funder), sources);
  }

  lemma OverflowMeans(sources: seq<SettlementSource>)
    ensures (exists g :: GroupTotal(Entries(sources), g) > U64_MAX)
       <==> exists vote, funder :: Sum(SourceTotal(vote, funder), sources) > U64_MAX
  {
    if g :| GroupTotal(Entries(sources), g) > U64_MAX {
      SourcesTotal(sources, g.voteAccount, g.funder);
      assert g == Group(g.voteAccount, g.funder);
      assert Sum(SourceTotal(g.voteAccount, g.funder), sources) > U64_MAX;
    }
    if vote, funder :| Sum(SourceTotal(vote, funder), sources) > U64_MAX {
      SourcesTotal(sources, vote, funder);
      assert GroupTotal(Entries(sources), Group(vote, funder)) > U64_MAX;
    }
  }

  lemma EntryOfSettlement(st: Settlement, vote: Pubkey, funder: SettlementFunder, withdraw: Pubkey, stake: Pubkey)
    ensures HasKey(EntryKey(), (Group(vote, funder), SettlementKey(withdraw, stake)), SettlementEntries()(st))
       <==> HasClaimIn(st, vote, funder, withdraw, stake)
  {
    var entries := SettlementEntries()(st);
    if e :| e in entries && EntryKey()(e) == (Group(vote, funder), SettlementKey(withdraw, stake)) {
      var i :| 0 <= i < |entries| && entries[i] == e;
      assert st.claims[i] in st.claims && IsClaimOf(st.claims[i], withdraw, stake);
    }
    if HasClaimIn(st, vote, funder, withdraw, stake) {
      var c :| c in st.claims && IsClaimOf(c, withdraw, stake);
      var i :| 0 <= i < |st.claims| && st.claims[i] == c;
      assert entries[i] in entries;
      assert EntryKey()(entries[i]) == (Group(vote, funder), SettlementKey(withdraw, stake));
    }
  }

  /** The entries with these keys are the claims of the sources. */
  lemma EntryIsClaimed(sources: seq<SettlementSource>, vote: Pubkey, funder: SettlementFunder, withdraw: Pubkey,
                       stake: Pubkey)
    ensures HasKey(EntryKey(), (Group(vote, funder), SettlementKey(withdraw, stake)), Entries(sources))
       <==> IsClaimed(sources, vote, funder, withdraw, stake)
  {
    var key := (Group(vote, funder), SettlementKey(withdraw, stake));
    if e :| e in Entries(sources) && EntryKey()(e) == key {
      FlatMapMembers(SettlementEntries(), SettlementsOf(sources), e);
      var st :| st in SettlementsOf(sources) && e in SettlementEntries()(st);
      FlatMapMembers(SourceSettlements(), sources, st);
      EntryOfSettlement(st, vote, funder, withdraw, stake);
    }
    if IsClaimed(sources, vote, funder, withdraw, stake) {
      var source, st :| source in sources && st in source.collection.settlements
        && HasClaimIn(st, vote, funder, withdraw, stake);
      EntryOfSettlement(st, vote, funder, withdraw, stake);
      var e :| e in SettlementEntries()(st) && EntryKey()(e) == key;
      assert st in SourceSettlements()(source);
      FlatMapMembers(SourceSettlements(), sources, st);
      FlatMapMembers(SettlementEntries(), SettlementsOf(sources), e);
    }
  }

  lemma LeafIs(env: Env, nodes: seq<TreeNode>, i: nat)
    requires i < |nodes|
    ensures IsLeafOf(env.digest, nodes[i], LeavesOf(env, nodes)[i])
  {
    EncodeIsLayout(nodes[i], Encode(nodes[i]));
    assert LeavesOf(env, nodes)[i] == env.digest([0] + env.digest(Encode(nodes[i])));
  }

  lemma {:induction false} FoldIsClimb(s: Scheme, leaf: Hash, proof: seq<Hash>)
    requires s.sorted
    ensures FoldProof(s.digest, leaf, proof) == Climb(s, leaf, proof)
  {
    if proof != [] {
      FoldIsClimb(s, leaf, proof[..|proof| - 1]);
      PairHashIsParent(s, Climb(s, leaf, proof[..|proof| - 1]), proof[|proof| - 1]);
    }
  }

  lemma TreeHasRoot(env: Env, epoch: u64, g: Group, t: MerkleTreeMeta)
    requires IsTree(env, epoch, g, t)
    ensures t.merkleRoot.Some? && IsRootOf(env.digest, t.treeNodes, t.merkleRoot.value)
  {
    var leaves := LeavesOf(env, t.treeNodes);
    assert |MergedOf(t)| == |t.treeNodes|;
    RootIsFold(TreeScheme(env), leaves);
    forall i | 0 <= i < |t.treeNodes|
      ensures IsLeafOf(env.digest, t.treeNodes[i], leaves[i])
    {
      LeafIs(env, t.treeNodes, i);
    }
  }

  lemma NodeFolds(env: Env, epoch: u64, g: Group, t: MerkleTreeMeta, i: nat)
    requires IsTree(env, epoch, g, t) && i < |t.treeNodes|
    ensures var node := t.treeNodes[i];
            && node.proof.Some?
            && exists leaf :: IsLeafOf(env.digest, node, leaf)
                 && t.merkleRoot == Some(FoldProof(env.digest, leaf, node.proof.value))
  {
    var leaf := LeavesOf(env, t.treeNodes)[i];
    EveryNodeClaimable(env, epoch, g, t, i);
    LeafIs(env, t.treeNodes, i);
    FoldIsClimb(TreeScheme(env), leaf, t.treeNodes[i].proof.value);
  }

  lemma NodePays(env: Env, epoch: u64, sources: seq<SettlementSource>, g: Group, t: MerkleTreeMeta, i: nat)
    requires IsTreeFor(env, epoch, Entries(sources), g, t) && i < |t.treeNodes|
    ensures PaysNode(env.digest, sources, g.funder, t, i)
  {
    var node, merged := t.treeNodes[i], MergedOf(t);
    assert merged[i] in merged && merged[i] == (SettlementKey(node.withdrawAuthority, node.stakeAuthority), node.claim);
    assert g == Group(t.voteAccount, g.funder);
    EntryIsClaimed(sources, t.voteAccount, g.funder, node.withdrawAuthority, node.stakeAuthority);
    SourcesSum(sources, t.voteAccount, g.funder, node.withdrawAuthority, node.stakeAuthority);
    NodeIndexed(env, epoch, g, t, i);
    NodeFolds(env, epoch, g, t, i);
  }

  lemma NodesInOrder(merged: seq<(SettlementKey, u64)>, i: nat, j: nat)
    requires StrictlySorted(MergedLe(), merged) && i < j < |merged|
    requires forall m, n :: 0 <= m < n < |merged| ==> merged[m].0 != merged[n].0
    ensures var x, y := merged[i].0.withdrawAuthority + merged[i].0.stakeAuthority,
                        merged[j].0.withdrawAuthority + merged[j].0.stakeAuthority;
            x != y && LexLe(x, y)
  {
    var k, l := merged[i].0, merged[j].0;
    assert MergedLe()(merged[i], merged[j]);
    LexOfConcat(k.withdrawAuthority, k.stakeAuthority, l.withdrawAuthority, l.stakeAuthority);
    assert (k.withdrawAuthority + k.stakeAuthority)[..32] == k.withdrawAuthority;
    assert (l.withdrawAuthority + l.stakeAuthority)[..32] == l.withdrawAuthority;
    assert (k.withdrawAuthority + k.stakeAuthority)[32..] == k.stakeAuthority;
    assert (l.withdrawAuthority + l.stakeAuthority)[32..] == l.stakeAuthority;
  }

  lemma TreeNodesInOrder(entries: seq<Entry>, g: Group, t: MerkleTreeMeta, i: nat, j: nat)
    requires IsMerged(entries, g, MergedOf(t)) && i < j < |t.treeNodes|
    ensures var x, y := t.treeNodes[i].withdrawAuthority + t.treeNodes[i].stakeAuthority,
                        t.treeNodes[j].withdrawAuthority + t.treeNodes[j].stakeAuthority;
            x != y && LexLe(x, y)
  {
    var merged := MergedOf(t);
    MergedHoldsGroupTotal(entries, g, merged);
    forall m, n | 0 <= m < n < |merged|
      ensures merged[m].0 != merged[n].0
    {
      assert KeysOf(merged)[m] != KeysOf(merged)[n];
    }
    NodesInOrder(merged, i, j);
  }

  lemma MergedHasNode(t: MerkleTreeMeta, key: SettlementKey)
    requires HasKey(MergedKey(), key, MergedOf(t))
    ensures HasNode(t, key.withdrawAuthority, key.stakeAuthority)
  {
    var merged := MergedOf(t);
    var m :| m in merged && MergedKey()(m) == key;
    var i :| 0 <= i < |merged| && merged[i] == m;
    assert t.treeNodes[i] in t.treeNodes;
  }

  lemma ClaimedHasNode(env: Env, epoch: u64, sources: seq<SettlementSource>, g: Group, t: MerkleTreeMeta,
                       withdraw: Pubkey, stake: Pubkey)
    requires IsTreeFor(env, epoch, Entries(sources), g, t)
    requires IsClaimed(sources, t.voteAccount, g.funder, withdraw, stake)
    ensures HasNode(t, withdraw, stake)
  {
    assert g == Group(t.voteAccount, g.funder);
    EntryIsClaimed(sources, t.voteAccount, g.funder, withdraw, stake);
    var e :| e in Entries(sources) && EntryKey()(e) == (g, SettlementKey(withdraw, stake));
    assert HasKey(MergedKey(), e.key, MergedOf(t));
    MergedHasNode(t, SettlementKey(withdraw, stake));
  }

  lemma TreeTotal(t: MerkleTreeMeta)
    ensures Sum(MergedAmount(), MergedOf(t)) == Sum(NodeClaim(), t.treeNodes)
  {
    SumCongruence(MergedAmount(), MergedOf(t), NodeClaim(), t.treeNodes);
  }

  lemma TreePays(env: Env, epoch: u64, sources: seq<SettlementSource>, g: Group, t: MerkleTreeMeta)
    requires IsTreeFor(env, epoch, Entries(sources), g, t)
    ensures PaysTree(env, epoch, sources, g.funder, t)
  {
    forall i | 0 <= i < |t.treeNodes|
      ensures PaysNode(env.digest, sources, g.funder, t, i)
    {
      NodePays(env, epoch, sources, g, t, i);
    }
    forall i, j | 0 <= i < j < |t.treeNodes|
      ensures var x, y := t.treeNodes[i].withdrawAuthority + t.treeNodes[i].stakeAuthority,
                          t.treeNodes[j].withdrawAuthority + t.treeNodes[j].stakeAuthority;
              x != y && LexLe(x, y)
    {
      TreeNodesInOrder(Entries(sources), g, t, i, j);
    }
    forall withdraw, stake | IsClaimed(sources, t.voteAccount, g.funder, withdraw, stake)
      ensures HasNode(t, withdraw, stake)
    {
      ClaimedHasNode(env, epoch, sources, g, t, withdraw, stake);
    }
    TreeTotal(t);
    TreeHasRoot(env, epoch, g, t);
  }

  lemma OutputOrder(t: MerkleTreeMeta, u: MerkleTreeMeta, f: SettlementFunder, h: SettlementFunder)
    requires MetaLe()(t, u) && !MetaLe()(u, t)
    requires t.fundingSources.Keys == {f} && u.fundingSources.Keys == {h}
    ensures TreePrecedes(t, u)
  {
    assert f in t.fundingSources && h in u.fundingSources;
    assert FirstFunder(t.fundingSources) == Some(f) && FirstFunder(u.fundingSources) == Some(h);
  }

  lemma MemberPays(env: Env, epoch: u64, sources: seq<SettlementSource>, trees: seq<MerkleTreeMeta>, t: MerkleTreeMeta)
    returns (funder: SettlementFunder)
    requires IsCollection(env, epoch, Entries(sources), trees) && t in trees
    ensures PaysTree(env, epoch, sources, funder, t)
  {
    var g :| TreeTest(env, epoch, Entries(sources))(g, t);
    TreePays(env, epoch, sources, g, t);
    funder := g.funder;
  }

  lemma ClaimedHasTree(env: Env, epoch: u64, sources: seq<SettlementSource>, trees: seq<MerkleTreeMeta>, vote: Pubkey,
                       funder: SettlementFunder, withdraw: Pubkey, stake: Pubkey)
    requires IsCollection(env, epoch, Entries(sources), trees)
    requires IsClaimed(sources, vote, funder, withdraw, stake)
    ensures exists t :: t in trees && t.voteAccount == vote && funder in t.fundingSources
  {
    EntryIsClaimed(sources, vote, funder, withdraw, stake);
    var e :| e in Entries(sources) && EntryKey()(e) == (Group(vote, funder), SettlementKey(withdraw, stake));
    var t :| t in trees && TreeTest(env, epoch, Entries(sources))(e.group, t);
    assert IsTree(env, epoch, Group(vote, funder), t);
  }

  lemma TreesInOrder(env: Env, epoch: u64, sources: seq<SettlementSource>, trees: seq<MerkleTreeMeta>, i: nat, j: nat)
    requires IsCollection(env, epoch, Entries(sources), trees) && i < j < |trees|
    ensures TreePrecedes(trees[i], trees[j])
  {
    var f := MemberPays(env, epoch, sources, trees, trees[i]);
    var h := MemberPays(env, epoch, sources, trees, trees[j]);
    OutputOrder(trees[i], trees[j], f, h);
  }

  /** The collection that the entries require pays the claims of the sources. */
  lemma CollectionPaysClaims(env: Env, epoch: u64, sources: seq<SettlementSource>, trees: seq<MerkleTreeMeta>)
    requires IsCollection(env, epoch, Entries(sources), trees)
    ensures PaysClaims(env, epoch, sources, trees)
  {
    forall t | t in trees
      ensures exists funder :: PaysTree(env, epoch, sources, funder, t)
    {
      var funder := MemberPays(env, epoch, sources, trees, t);
    }
    forall vote, funder, withdraw, stake | IsClaimed(sources, vote, funder, withdraw, stake)
      ensures exists t :: t in trees && t.voteAccount == vote && funder in t.fundingSources
    {
      ClaimedHasTree(env, epoch, sources, trees, vote, funder, withdraw, stake);
    }
    forall i, j | 0 <= i < j < |trees|
      ensures TreePrecedes(trees[i], trees[j])
    {
      TreesInOrder(env, epoch, sources, trees, i, j);
    }
  }

  // ------------------------------------------------------------------- the generator

  /** `generate_merkle_tree_collection`: the result is the collection the entries require; a checked addition
      panics exactly when the claims of some group do not fit in 64 bits. */
  method Generate(env: Env, sources: seq<SettlementSource>) returns (r: Result<MerkleTreeCollection, GeneratorError>)
    ensures r == Failure(NoSources) <==> sources == []
    ensures r.Success? ==> sources != [] && Consistent(sources, |sources|)
    ensures r == Failure(AmountOverflow)
       <==> sources != [] && Consistent(sources, |sources|) && exists g :: GroupTotal(Entries(sources), g) > U64_MAX
    ensures r.Failure? && r.error != AmountOverflow && sources != [] ==> IsMismatch(sources, r.error)
    ensures r.Success? ==>
              var c := r.value;
              && c.epoch == sources[0].collection.epoch && c.slot == sources[0].collection.slot
              && c.validatorBondsConfig == env.validatorBondsConfig
              && |c.sources| == |sources| && (forall i :: 0 <= i < |sources| ==> c.sources[i] == sources[i].name)
              && IsCollection(env, c.epoch, Entries(sources), c.merkleTrees)
    ensures r == Failure(AmountOverflow)
       <==> sources != [] && Consistent(sources, |sources|)
            && exists vote, funder :: Sum(SourceTotal(vote, funder), sources) > U64_MAX
    ensures r.Success? ==> PaysClaims(env, r.value.epoch, sources, r.value.merkleTrees)
  {
    OverflowMeans(sources);
    var valid := ValidateSources(sources);
    if valid.Failure? {
      return Failure(valid.error);
    }
    var epoch := valid.value.0;
    var grouped := GroupSettlements(sources);
    var trees := TreesOf(env, epoch, SettlementsOf(sources), grouped);
    assert Entries(sources) == EntriesOf(SettlementsOf(sources));
    if trees.Failure? {
      return Failure(trees.error);
    }
    CollectionPaysClaims(env, epoch, sources, trees.value);
    var names := seq(|sources|, i requires 0 <= i < |sources| => sources[i].name);
    r := Success(MerkleTreeCollection(epoch, valid.value.1, env.validatorBondsConfig, names, trees.value));
  }

  /** Canonical generation, end to end: whatever is permuted in the input and however hash maps are walked, either both
      runs fail or both succeed with the identical list of trees, and a panic of one is a panic of the other. */
  method GenerateBoth(env: Env, a: seq<SettlementSource>, ghost m: seq<SettlementSource>,
                      ghost n: seq<SettlementSource>, b: seq<SettlementSource>)
    returns (ra: Result<MerkleTreeCollection, GeneratorError>, rb: Result<MerkleTreeCollection, GeneratorError>)
    requires SameUpToOrder(a, m, n, b)
    ensures ra.Success? <==> rb.Success?
    ensures ra == Failure(AmountOverflow) <==> rb == Failure(AmountOverflow)
    ensures ra.Success? ==> ra.value.merkleTrees == rb.value.merkleTrees
    ensures ra.Success? ==> ra.value.epoch == rb.value.epoch && ra.value.slot == rb.value.slot
  {
    ra := Generate(env, a);
    rb := Generate(env, b);
    OrderKeepsEntries(a, m, n, b);
    OrderKeepsConsistency(a, m, n, b);
    forall g
      ensures GroupTotal(Entries(a), g) == GroupTotal(Entries(b), g)
    {
      CanonicalPanic(Entries(a), Entries(b), g);
    }
    if ra.Success? && rb.Success? {
      CanonicalOutput(env, ra.value.epoch, Entries(a), Entries(b), ra.value.merkleTrees, rb.value.merkleTrees);
    }
  }
}
