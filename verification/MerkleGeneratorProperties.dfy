/** Properties of every generated Merkle tree collection. */
module MerkleGeneratorProperties {
  import opened Wrappers
  import opened Bytes
  import opened Sums
  import opened Sorting
  import opened MerkleTrees
  import opened MerkleProofs
  import opened TreeNodes
  import opened SettlementCollections
  import opened MerkleGenerator

  // ------------------------------------------------------------ canonical output

  lemma MergedIncluded(ea: seq<Entry>, eb: seq<Entry>, g: Group, ma: seq<(SettlementKey, u64)>,
                       mb: seq<(SettlementKey, u64)>, m: (SettlementKey, u64))
    requires multiset(ea) == multiset(eb) && IsMerged(ea, g, ma) && IsMerged(eb, g, mb) && m in ma
    ensures m in mb
  {
    SameMembers(ea, eb);
    var e :| e in ea && EntryKey()(e) == (g, m.0);
    var n :| n in mb && MergedKey()(n) == e.key;
    KeySumPermutation(EntryKey(), EntryAmount(), (g, m.0), ea, eb);
    assert m == n;
  }

  /** The merged claims of a group depend on the entries as a multiset only. */
  lemma MergedUnique(ea: seq<Entry>, eb: seq<Entry>, g: Group, ma: seq<(SettlementKey, u64)>,
                     mb: seq<(SettlementKey, u64)>)
    requires multiset(ea) == multiset(eb) && IsMerged(ea, g, ma) && IsMerged(eb, g, mb)
    ensures ma == mb
  {
    forall m
      ensures m in ma <==> m in mb
    {
      if m in ma {
        MergedIncluded(ea, eb, g, ma, mb, m);
      }
      if m in mb {
        MergedIncluded(eb, ea, g, mb, ma, m);
      }
    }
    StrictlySortedUnique(MergedLe(), ma, mb);
  }

  lemma ProofUnique(s: Scheme, leaves: seq<Hash>, i: nat, p: seq<Hash>, q: seq<Hash>)
    requires i < |leaves| && IsProofOf(s, leaves, i, p) && IsProofOf(s, leaves, i, q)
    ensures p == q
  {
  }

  /** A tree's leaves are those of its claims. */
  lemma LeavesFromMerged(env: Env, epoch: u64, g: Group, t: MerkleTreeMeta)
    requires IsTree(env, epoch, g, t)
    ensures LeavesOf(env, t.treeNodes) == LeavesOf(env, NodesOf(MergedOf(t)))
  {
    ItemsIgnoreProofs(env, t.treeNodes, NodesOf(MergedOf(t)));
  }

  /** A tree is a function of its group and its merged claims. */
  lemma TreeUnique(env: Env, epoch: u64, g: Group, t: MerkleTreeMeta, u: MerkleTreeMeta)
    requires IsTree(env, epoch, g, t) && IsTree(env, epoch, g, u) && MergedOf(t) == MergedOf(u)
    ensures t == u
  {
    LeavesFromMerged(env, epoch, g, t);
    LeavesFromMerged(env, epoch, g, u);
    NodesUnique(env, epoch, g, t, u);
  }

  lemma NodesUnique(env: Env, epoch: u64, g: Group, t: MerkleTreeMeta, u: MerkleTreeMeta)
    requires IsTree(env, epoch, g, t) && IsTree(env, epoch, g, u) && MergedOf(t) == MergedOf(u)
    requires LeavesOf(env, t.treeNodes) == LeavesOf(env, u.treeNodes)
    ensures t.treeNodes == u.treeNodes
  {
    assert |t.treeNodes| == |MergedOf(t)| == |u.treeNodes|;
    forall i | 0 <= i < |t.treeNodes|
      ensures t.treeNodes[i] == u.treeNodes[i]
    {
      ProofUnique(TreeScheme(env), LeavesOf(env, t.treeNodes), i, t.treeNodes[i].proof.value,
                  u.treeNodes[i].proof.value);
    }
  }

  lemma TreeIncluded(env: Env, epoch: u64, ea: seq<Entry>, eb: seq<Entry>, ta: seq<MerkleTreeMeta>,
                     tb: seq<MerkleTreeMeta>, t: MerkleTreeMeta)
    requires multiset(ea) == multiset(eb) && t in ta
    requires IsCollection(env, epoch, ea, ta) && IsCollection(env, epoch, eb, tb)
    ensures t in tb
  {
    var g :| IsTreeFor(env, epoch, ea, g, t);
    var m := MergedOf(t)[0];
    assert m in MergedOf(t);
    var e :| e in ea && EntryKey()(e) == (g, m.0);
    SameMembers(ea, eb);
    var u :| u in tb && TreeTest(env, epoch, eb)(e.group, u);
    MergedUnique(ea, eb, g, MergedOf(t), MergedOf(u));
    TreeUnique(env, epoch, g, t, u);
  }

  /** Canonical output: inputs with the same entries, in whatever order and split into whatever settlements and
      sources, give the identical list of trees: nodes, indices, proofs and roots. */
  lemma CanonicalOutput(env: Env, epoch: u64, ea: seq<Entry>, eb: seq<Entry>, ta: seq<MerkleTreeMeta>,
                        tb: seq<MerkleTreeMeta>)
    requires multiset(ea) == multiset(eb)
    requires IsCollection(env, epoch, ea, ta) && IsCollection(env, epoch, eb, tb)
    ensures ta == tb
  {
    forall t
      ensures t in ta <==> t in tb
    {
      if t in ta {
        TreeIncluded(env, epoch, ea, eb, ta, tb, t);
      }
      if t in tb {
        TreeIncluded(env, epoch, eb, ea, tb, ta, t);
      }
    }
    StrictlySortedUnique(MetaLe(), ta, tb);
  }

  /** Whether generation panics does not depend on the order either. */
  lemma CanonicalPanic(ea: seq<Entry>, eb: seq<Entry>, g: Group)
    requires multiset(ea) == multiset(eb)
    ensures GroupTotal(ea, g) == GroupTotal(eb, g)
  {
    KeySumPermutation(EntryGroup(), EntryAmount(), g, ea, eb);
  }

  // ------------------------------------------------ what leaves the entries unchanged

  lemma PermutedSources(a: seq<SettlementSource>, b: seq<SettlementSource>)
    requires multiset(a) == multiset(b)
    ensures multiset(Entries(a)) == multiset(Entries(b))
  {
    FlatMapPermutation(SourceSettlements(), a, b);
    FlatMapPermutation(SettlementEntries(), SettlementsOf(a), SettlementsOf(b));
  }

  lemma PermutedSettlements(a: seq<SettlementSource>, b: seq<SettlementSource>)
    requires |a| == |b|
    requires forall i :: 0 <= i < |a| ==> multiset(a[i].collection.settlements) == multiset(b[i].collection.settlements)
    ensures multiset(Entries(a)) == multiset(Entries(b))
  {
    FlatMapPointwise(SourceSettlements(), a, SourceSettlements(), b);
    FlatMapPermutation(SettlementEntries(), SettlementsOf(a), SettlementsOf(b));
  }

  function ClaimEntry(g: Group): SettlementClaim -> seq<Entry> {
    (c: SettlementClaim) => [Entry(g, KeyOf(c), c.claimAmount)]
  }

  lemma {:induction false} EntriesByClaim(g: Group, claims: seq<SettlementClaim>, entries: seq<Entry>)
    requires |claims| == |entries|
    requires forall i :: 0 <= i < |claims| ==> entries[i] == Entry(g, KeyOf(claims[i]), claims[i].claimAmount)
    ensures entries == FlatMap(ClaimEntry(g), claims)
  {
    if claims != [] {
      EntriesByClaim(g, claims[1..], entries[1..]);
      assert entries == [entries[0]] + entries[1..];
    }
  }

  lemma PermutedClaims(a: seq<SettlementSource>, b: seq<SettlementSource>)
    requires |a| == |b|
    requires forall i :: 0 <= i < |a| ==> SameButClaimOrder(a[i].collection.settlements, b[i].collection.settlements)
    ensures multiset(Entries(a)) == multiset(Entries(b))
  {
    FlatMapCompose(SettlementEntries(), SourceSettlements(), SourceEntries(), a);
    FlatMapCompose(SettlementEntries(), SourceSettlements(), SourceEntries(), b);
    forall i | 0 <= i < |a|
      ensures multiset(SourceEntries()(a[i])) == multiset(SourceEntries()(b[i]))
    {
      PermutedClaimsInSource(a[i].collection.settlements, b[i].collection.settlements);
    }
    FlatMapPointwise(SourceEntries(), a, SourceEntries(), b);
  }

  function SourceEntries(): SettlementSource -> seq<Entry> {
    (source: SettlementSource) => EntriesOf(source.collection.settlements)
  }

  ghost predicate SameButClaimOrder(a: seq<Settlement>, b: seq<Settlement>) {
    |a| == |b| && forall i :: 0 <= i < |a| ==>
       GroupOf(a[i]) == GroupOf(b[i]) && multiset(a[i].claims) == multiset(b[i].claims)
  }

  lemma PermutedClaimsInSource(a: seq<Settlement>, b: seq<Settlement>)
    requires SameButClaimOrder(a, b)
    ensures multiset(EntriesOf(a)) == multiset(EntriesOf(b))
  {
    forall i | 0 <= i < |a|
      ensures multiset(SettlementEntries()(a[i])) == multiset(SettlementEntries()(b[i]))
    {
      var g := GroupOf(a[i]);
      EntriesByClaim(g, a[i].claims, SettlementEntries()(a[i]));
      EntriesByClaim(g, b[i].claims, SettlementEntries()(b[i]));
      FlatMapPermutation(ClaimEntry(g), a[i].claims, b[i].claims);
    }
    FlatMapPointwise(SettlementEntries(), a, SettlementEntries(), b);
  }

  // ------------------------------------------------------------------ canonical generation

  /** The sources carry the same epochs and slots, one by one. */
  predicate SameStamps(a: seq<SettlementSource>, b: seq<SettlementSource>) {
    |a| == |b| && forall i :: 0 <= i < |a| ==>
      a[i].collection.epoch == b[i].collection.epoch && a[i].collection.slot == b[i].collection.slot
  }

  /** `b` is `a` with its sources permuted (to `m`), then the settlements within each source (to `n`), then the claims
      within each settlement. */
  ghost predicate SameUpToOrder(a: seq<SettlementSource>, m: seq<SettlementSource>, n: seq<SettlementSource>,
                                b: seq<SettlementSource>) {
    && multiset(a) == multiset(m)
    && SameStamps(m, n) && SameStamps(n, b)
    && (forall i :: 0 <= i < |m| ==> multiset(m[i].collection.settlements) == multiset(n[i].collection.settlements))
    && (forall i :: 0 <= i < |n| ==> SameButClaimOrder(n[i].collection.settlements, b[i].collection.settlements))
  }

  predicate StampedAs(source: SettlementSource, epoch: u64, slot: u64) {
    source.collection.epoch == epoch && source.collection.slot == slot
  }

  /** Consistency is about the members, so permuting sources keeps it and the common epoch and slot. */
  lemma ConsistentPermuted(a: seq<SettlementSource>, m: seq<SettlementSource>)
    requires multiset(a) == multiset(m) && a != []
    ensures m != []
    ensures Consistent(a, |a|) ==> Consistent(m, |m|) && StampedAs(m[0], a[0].collection.epoch, a[0].collection.slot)
  {
    assert a[0] in multiset(a);
    assert a[0] in multiset(m);
    if Consistent(a, |a|) {
      forall i | 0 <= i < |m|
        ensures StampedAs(m[i], a[0].collection.epoch, a[0].collection.slot)
      {
        assert m[i] in multiset(m);
        assert m[i] in multiset(a);
        var j :| 0 <= j < |a| && a[j] == m[i];
      }
    }
  }

  lemma OrderKeepsEntries(a: seq<SettlementSource>, m: seq<SettlementSource>, n: seq<SettlementSource>,
                          b: seq<SettlementSource>)
    requires SameUpToOrder(a, m, n, b)
    ensures multiset(Entries(a)) == multiset(Entries(b))
  {
    PermutedSources(a, m);
    PermutedSettlements(m, n);
    PermutedClaims(n, b);
  }

  lemma OrderKeepsConsistency(a: seq<SettlementSource>, m: seq<SettlementSource>, n: seq<SettlementSource>,
                              b: seq<SettlementSource>)
    requires SameUpToOrder(a, m, n, b)
    ensures a == [] <==> b == []
    ensures a != [] ==> (Consistent(a, |a|) <==> Consistent(b, |b|))
    ensures a != [] && Consistent(a, |a|) ==> StampedAs(b[0], a[0].collection.epoch, a[0].collection.slot)
  {
    assert |multiset(a)| == |multiset(m)|;
    if a != [] {
      ConsistentPermuted(a, m);
      ConsistentPermuted(m, a);
      assert Consistent(m, |m|) <==> Consistent(n, |n|);
      assert Consistent(n, |n|) <==> Consistent(b, |b|);
    }
  }

  // ------------------------------------------------------------------ conservation

  lemma {:induction false} KeySumOfGroup(entries: seq<Entry>, g: Group, k: SettlementKey)
    ensures KeySum(EntryKey(), EntryAmount(), (g, k), entries) == KeySum(EntrySettlementKey(), AmountIn(g), k, entries)
  {
    if entries != [] {
      KeySumOfGroup(entries[1..], g, k);
    }
  }

  lemma {:induction false} SumOfGroup(entries: seq<Entry>, g: Group)
    ensures GroupTotal(entries, g) == Sum(AmountIn(g), entries)
  {
    if entries != [] {
      SumOfGroup(entries[1..], g);
    }
  }

  function EntrySettlementKey(): Entry -> SettlementKey {
    (e: Entry) => e.key
  }

  function AmountIn(g: Group): Entry -> int {
    (e: Entry) => if e.group == g then e.amount else 0
  }

  function AmountOf(t: MerkleTreeMeta): int {
    t.maxTotalClaimSum
  }

  /** The merged claims of a group sum to what the group claims over all sources. */
  lemma MergedHoldsGroupTotal(entries: seq<Entry>, g: Group, merged: seq<(SettlementKey, u64)>)
    requires IsMerged(entries, g, merged)
    ensures Sum(MergedAmount(), merged) == GroupTotal(entries, g)
    ensures NoDuplicates(KeysOf(merged))
  {
    var ks := KeysOf(merged);
    forall i, j | 0 <= i < j < |ks|
      ensures ks[i] != ks[j]
    {
      assert merged[i] in merged && merged[j] in merged;
      assert MergedLe()(merged[i], merged[j]) && !MergedLe()(merged[j], merged[i]);
    }
    forall i | 0 <= i < |merged|
      ensures merged[i].1 == KeySum(EntrySettlementKey(), AmountIn(g), ks[i], entries)
    {
      assert merged[i] in merged;
      KeySumOfGroup(entries, g, ks[i]);
    }
    SumCongruence(MergedAmount(), merged, KeySums(EntrySettlementKey(), AmountIn(g), entries), ks);
    forall e | e in entries && AmountIn(g)(e) != 0
      ensures EntrySettlementKey()(e) in ks
    {
      var m :| m in merged && MergedKey()(m) == e.key;
      var i :| 0 <= i < |merged| && merged[i] == m;
      assert ks[i] == e.key;
    }
    SumByKey(EntrySettlementKey(), AmountIn(g), ks, entries);
    SumOfGroup(entries, g);
  }

  /** Merkle conservation, per tree: the total of a tree is the sum of all claims of its group over all sources,
      its keys are pairwise distinct, and each node holds the exact sum of its key. */
  lemma TreeConserves(env: Env, epoch: u64, entries: seq<Entry>, g: Group, t: MerkleTreeMeta)
    requires IsTreeFor(env, epoch, entries, g, t)
    ensures t.maxTotalClaimSum == GroupTotal(entries, g)
    ensures forall i, j :: 0 <= i < j < |t.treeNodes| ==> KeyOfNode(t.treeNodes[i]) != KeyOfNode(t.treeNodes[j])
    ensures forall i :: 0 <= i < |t.treeNodes| ==>
              t.treeNodes[i].claim == KeySum(EntryKey(), EntryAmount(), (g, KeyOfNode(t.treeNodes[i])), entries)
  {
    var merged := MergedOf(t);
    MergedHoldsGroupTotal(entries, g, merged);
    forall i, j | 0 <= i < j < |t.treeNodes|
      ensures KeyOfNode(t.treeNodes[i]) != KeyOfNode(t.treeNodes[j])
    {
      assert KeysOf(merged)[i] != KeysOf(merged)[j];
    }
    forall i | 0 <= i < |t.treeNodes|
      ensures t.treeNodes[i].claim == KeySum(EntryKey(), EntryAmount(), (g, KeyOfNode(t.treeNodes[i])), entries)
    {
      assert merged[i] in merged;
    }
  }

  function KeyOfNode(node: TreeNode): SettlementKey {
    SettlementKey(node.withdrawAuthority, node.stakeAuthority)
  }

  function TreeGroups(trees: seq<MerkleTreeMeta>): seq<Group> {
    seq(|trees|, i requires 0 <= i < |trees| => GroupOfTree(trees[i]))
  }

  lemma TreeAmountIsGroupTotal(env: Env, epoch: u64, entries: seq<Entry>, trees: seq<MerkleTreeMeta>, t: MerkleTreeMeta)
    requires IsCollection(env, epoch, entries, trees) && t in trees
    ensures AmountOf(t) == GroupTotal(entries, GroupOfTree(t))
    ensures FirstFunder(t.fundingSources).Some?
  {
    var g :| TreeTest(env, epoch, entries)(g, t);
    TreeForItsGroup(env, epoch, g, t);
    TreeConserves(env, epoch, entries, g, t);
  }

  lemma EntryGroupHasTree(env: Env, epoch: u64, entries: seq<Entry>, trees: seq<MerkleTreeMeta>, e: Entry)
    requires IsCollection(env, epoch, entries, trees) && e in entries
    ensures e.group in TreeGroups(trees)
  {
    var t :| t in trees && TreeTest(env, epoch, entries)(e.group, t);
    TreeForItsGroup(env, epoch, e.group, t);
    var i :| 0 <= i < |trees| && trees[i] == t;
    assert TreeGroups(trees)[i] == e.group;
  }

  lemma TreeGroupsDistinct(trees: seq<MerkleTreeMeta>)
    requires StrictlySorted(MetaLe(), trees)
    requires forall t :: t in trees ==> FirstFunder(t.fundingSources).Some?
    ensures NoDuplicates(TreeGroups(trees))
  {
    forall i, j | 0 <= i < j < |trees|
      ensures TreeGroups(trees)[i] != TreeGroups(trees)[j]
    {
      assert trees[i] in trees && trees[j] in trees;
      assert MetaLe()(trees[i], trees[j]) && !MetaLe()(trees[j], trees[i]);
    }
  }

  function TreeAmount(): MerkleTreeMeta -> int {
    (t: MerkleTreeMeta) => AmountOf(t)
  }

  /** Merkle conservation, end to end: the trees together hold every lamport claimed in any source, once. */
  lemma CollectionConserves(env: Env, epoch: u64, entries: seq<Entry>, trees: seq<MerkleTreeMeta>)
    requires IsCollection(env, epoch, entries, trees)
    ensures Sum(TreeAmount(), trees) == Sum(EntryAmount(), entries)
  {
    forall t | t in trees
      ensures AmountOf(t) == GroupTotal(entries, GroupOfTree(t)) && FirstFunder(t.fundingSources).Some?
    {
      TreeAmountIsGroupTotal(env, epoch, entries, trees, t);
    }
    forall e | e in entries
      ensures EntryGroup()(e) in TreeGroups(trees)
    {
      EntryGroupHasTree(env, epoch, entries, trees, e);
    }
    TreeGroupsDistinct(trees);
    SumCongruence(TreeAmount(), trees, KeySums(EntryGroup(), EntryAmount(), entries), TreeGroups(trees));
    SumByKey(EntryGroup(), EntryAmount(), TreeGroups(trees), entries);
  }

  // --------------------------------------------------------------- claims against the root

  /** Every node of every tree can be claimed: its stored proof folds to the tree's root. */
  lemma EveryNodeClaimable(env: Env, epoch: u64, g: Group, t: MerkleTreeMeta, i: nat)
    requires IsTree(env, epoch, g, t) && i < |t.treeNodes|
    ensures t.treeNodes[i].proof.Some?
    ensures t.merkleRoot == Some(Climb(TreeScheme(env),
                                       LeafHash(TreeScheme(env), NodeHash(env.digest, t.treeNodes[i])),
                                       t.treeNodes[i].proof.value))
  {
    var s := TreeScheme(env);
    var leaves := LeavesOf(env, t.treeNodes);
    assert i < |MergedOf(t)|;
    ProofCompleteness(s, leaves, i, t.treeNodes[i].proof.value);
  }

  ghost function EncodeStrings(nodes: seq<TreeNode>): set<seq<byte>> {
    set i | 0 <= i < |nodes| :: Encode(nodes[i])
  }

  /** Every string hashed for a tree: the nodes, their leaves and everything above. */
  ghost function HashedStrings(env: Env, nodes: seq<TreeNode>): set<seq<byte>> {
    EncodeStrings(nodes) + TreeStrings(TreeScheme(env), Items(env, nodes))
  }

  /** Every string hashed when `node` is claimed with `proof`. */
  ghost function ClaimStrings(env: Env, node: TreeNode, proof: seq<Hash>): set<seq<byte>> {
    var s, x := TreeScheme(env), NodeHash(env.digest, node);
    {Encode(node), LeafBytes(x)} + ClimbStrings(s, LeafHash(s, x), proof)
  }

  /** Indices as `i as u64` writes them, in a list that a 64-bit machine can hold. */
  ghost predicate Indexed(nodes: seq<TreeNode>) {
    |nodes| <= U64_MAX + 1 && forall j :: 0 <= j < |nodes| ==> nodes[j].index == j
  }

  lemma NodeIndexed(env: Env, epoch: u64, g: Group, t: MerkleTreeMeta, j: nat)
    requires IsTree(env, epoch, g, t) && j < |t.treeNodes|
    ensures t.treeNodes[j].index == j % (U64_MAX + 1)
  {
    assert |MergedOf(t)| == |t.treeNodes|;
  }

  lemma IndexOfSmall(j: nat)
    requires j <= U64_MAX
    ensures j % (U64_MAX + 1) == j
  {
  }

  lemma TreeIndexed(env: Env, epoch: u64, g: Group, t: MerkleTreeMeta)
    requires IsTree(env, epoch, g, t) && |t.treeNodes| <= U64_MAX + 1
    ensures Indexed(t.treeNodes) && t.treeNodes != []
  {
    assert |MergedOf(t)| == |t.treeNodes|;
    forall j | 0 <= j < |t.treeNodes|
      ensures t.treeNodes[j].index == j
    {
      NodeIndexed(env, epoch, g, t, j);
      IndexOfSmall(j);
    }
  }

  lemma NodeFound(env: Env, a: seq<TreeNode>, b: seq<TreeNode>, i: nat)
    requires NoCollision(TreeScheme(env), HashedStrings(env, a) + HashedStrings(env, b))
    requires Indexed(a) && Indexed(b) && i < |a|
    requires Items(env, a)[i] in Items(env, b)
    ensures i < |b| && SameLeaf(a[i], b[i])
  {
    var j :| 0 <= j < |b| && Items(env, b)[j] == Items(env, a)[i];
    assert Encode(a[i]) in EncodeStrings(a) && Encode(b[j]) in EncodeStrings(b);
    assert Encode(a[i]) in HashedStrings(env, a) + HashedStrings(env, b);
    assert Encode(b[j]) in HashedStrings(env, a) + HashedStrings(env, b);
    EncodeInjective(a[i], b[j]);
    assert a[i].index == i && b[j].index == j;
  }

  lemma SubsetNoCollision(s: Scheme, small: set<seq<byte>>, large: set<seq<byte>>)
    requires NoCollision(s, large) && small <= large
    ensures NoCollision(s, small)
  {
  }

  /** Nothing else can be claimed: whatever proof of whatever length leads from a node to the tree's root, the tree has
      a node with the same authorities, claim and index. */
  lemma OnlyNodesClaimable(env: Env, epoch: u64, g: Group, t: MerkleTreeMeta, node: TreeNode, proof: seq<Hash>)
    requires IsTree(env, epoch, g, t)
    requires NoCollision(TreeScheme(env), HashedStrings(env, t.treeNodes) + ClaimStrings(env, node, proof))
    requires t.merkleRoot
          == Some(Climb(TreeScheme(env), LeafHash(TreeScheme(env), NodeHash(env.digest, node)), proof))
    ensures exists i :: 0 <= i < |t.treeNodes| && SameLeaf(t.treeNodes[i], node)
  {
    var s, x, items := TreeScheme(env), NodeHash(env.digest, node), Items(env, t.treeNodes);
    var strings := HashedStrings(env, t.treeNodes) + ClaimStrings(env, node, proof);
    assert |MergedOf(t)| == |t.treeNodes|;
    SubsetNoCollision(s, TreeStrings(s, items) + {LeafBytes(x)} + ClimbStrings(s, LeafHash(s, x), proof), strings);
    ProofSoundness(s, items, x, proof);
    var i :| 0 <= i < |t.treeNodes| && items[i] == x;
    assert Encode(t.treeNodes[i]) in EncodeStrings(t.treeNodes) && Encode(t.treeNodes[i]) in strings;
    assert Encode(node) in strings;
    EncodeInjective(t.treeNodes[i], node);
  }

  lemma SameItemsSameLeaves(env: Env, a: seq<TreeNode>, b: seq<TreeNode>)
    requires NoCollision(TreeScheme(env), HashedStrings(env, a) + HashedStrings(env, b))
    requires Indexed(a) && Indexed(b)
    requires forall x :: x in Items(env, a) <==> x in Items(env, b)
    ensures |a| <= |b| && forall i :: 0 <= i < |a| ==> SameLeaf(a[i], b[i])
  {
    forall i | 0 <= i < |a|
      ensures i < |b| && SameLeaf(a[i], b[i])
    {
      assert Items(env, a)[i] in Items(env, a);
      NodeFound(env, a, b, i);
    }
    if |a| > 0 {
      assert SameLeaf(a[|a| - 1], b[|a| - 1]);
    }
  }

  lemma RootFixesLeaves(env: Env, a: seq<TreeNode>, b: seq<TreeNode>)
    requires a != [] && b != [] && Indexed(a) && Indexed(b)
    requires NoCollision(TreeScheme(env), HashedStrings(env, a) + HashedStrings(env, b))
    requires Root(TreeScheme(env), LeavesOf(env, a)) == Root(TreeScheme(env), LeavesOf(env, b))
    ensures |a| == |b| && forall i :: 0 <= i < |a| ==> SameLeaf(a[i], b[i])
  {
    var s := TreeScheme(env);
    SubsetNoCollision(s, TreeStrings(s, Items(env, a)) + TreeStrings(s, Items(env, b)),
                      HashedStrings(env, a) + HashedStrings(env, b));
    RootBindsItems(s, Items(env, a), Items(env, b));
    SameItemsSameLeaves(env, a, b);
    assert HashedStrings(env, a) + HashedStrings(env, b) == HashedStrings(env, b) + HashedStrings(env, a);
    SameItemsSameLeaves(env, b, a);
  }

  /** The root fixes the tree: two trees with one root have the same sequence of nodes (stake authority, withdraw
      authority, claim, index and proof), because every leaf hashes its own index. */
  lemma RootFixesNodes(env: Env, epochA: u64, ga: Group, t: MerkleTreeMeta, epochB: u64, gb: Group, u: MerkleTreeMeta)
    requires IsTree(env, epochA, ga, t) && IsTree(env, epochB, gb, u) && t.merkleRoot == u.merkleRoot
    requires |t.treeNodes| <= U64_MAX + 1 && |u.treeNodes| <= U64_MAX + 1
    requires NoCollision(TreeScheme(env), HashedStrings(env, t.treeNodes) + HashedStrings(env, u.treeNodes))
    ensures t.treeNodes == u.treeNodes
  {
    var a, b := t.treeNodes, u.treeNodes;
    TreeIndexed(env, epochA, ga, t);
    TreeIndexed(env, epochB, gb, u);
    RootFixesLeaves(env, a, b);
    ItemsIgnoreProofs(env, a, b);
    assert |MergedOf(t)| == |a| && |MergedOf(u)| == |b|;
    forall i | 0 <= i < |a|
      ensures a[i] == b[i]
    {
      ProofUnique(TreeScheme(env), LeavesOf(env, a), i, a[i].proof.value, b[i].proof.value);
    }
  }
}
