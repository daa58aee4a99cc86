/** What the paths and proofs taken from a Merkle tree establish, and what its root binds. */
module MerkleProofs {
  import opened Wrappers
  import opened Bytes
  import opened MerkleTrees

  // ------------------------------------------------------------- operations

  /** The fold of `Proof::verify`; it hashes left before right whatever the tree's scheme. */
  function VerifyFold(s: Scheme, path: seq<ProofEntry>, candidate: Hash): Option<Hash> {
    if path == [] then Some(candidate) else
    var hash := s.digest(EntryBytes(path[0], candidate));
    if hash == path[0].target then VerifyFold(s, path[1..], hash) else None
  }

  function EntryBytes(entry: ProofEntry, candidate: Hash): seq<byte> {
    NodeBytes(entry.leftSibling.GetOr(candidate), entry.rightSibling.GetOr(candidate))
  }

  /** `Proof::verify`. */
  predicate Verify(s: Scheme, path: seq<ProofEntry>, candidate: Hash) {
    VerifyFold(s, path, candidate).Some?
  }

  /** The siblings met from leaf `i` up to the root. */
  function SiblingAt(mt: MerkleTree, i: nat, h: nat): Hash
    requires mt.WellFormed() && i < mt.leafCount && h < Height(mt.leafCount)
  {
    AncestorInLevel(mt.leafCount, i, h);
    mt.At(h, SiblingIndex(mt.leafCount, h, Ancestor(i, h)))
  }

  /** `get_proof`; both of its panics are ruled out, the first by the precondition. */
  method GetProof(mt: MerkleTree, i: nat) returns (proof: seq<Hash>)
    requires mt.WellFormed() && i < mt.leafCount
    ensures |proof| == Height(mt.leafCount)
    ensures forall h :: 0 <= h < |proof| ==> proof[h] == SiblingAt(mt, i, h)
  {
    proof := [];
    var path := FindPath(mt, i);
    var entries := path.value;
    for level := 0 to |entries|
      invariant |proof| == level
      invariant forall h :: 0 <= h < level ==> proof[h] == SiblingAt(mt, i, h)
    {
      var branch := entries[level];
      assert branch == PathEntry(mt, i, level);
      if branch.leftSibling.Some? {
        proof := proof + [branch.leftSibling.value];
      } else if branch.rightSibling.Some? {
        proof := proof + [branch.rightSibling.value];
      } else {
        assert false;
      }
    }
  }

  /** Folding a stored proof from a leaf hash upwards, pair by pair, as claims are checked. */
  function Climb(s: Scheme, leaf: Hash, proof: seq<Hash>): Hash {
    if proof == [] then leaf
    else Parent(s, Climb(s, leaf, proof[..|proof| - 1]), proof[|proof| - 1])
  }

  // ------------------------------------------------------- strings hashed

  function NodeString(s: Scheme, leaves: seq<Hash>, h: nat, i: nat): seq<byte>
    requires 0 < h && i < Width(|leaves|, h)
  {
    ParentBytes(s, LeftChild(s, leaves, h, i), RightChild(s, leaves, h, i))
  }

  ghost function NodeStrings(s: Scheme, leaves: seq<Hash>): set<seq<byte>> {
    set h, i | 0 < h <= Height(|leaves|) && 0 <= i < Width(|leaves|, h) :: NodeString(s, leaves, h, i)
  }

  ghost function LeafStrings(items: seq<seq<byte>>): set<seq<byte>> {
    set i | 0 <= i < |items| :: LeafBytes(items[i])
  }

  /** Every string hashed while building the tree over `items`. */
  ghost function TreeStrings(s: Scheme, items: seq<seq<byte>>): set<seq<byte>> {
    LeafStrings(items) + NodeStrings(s, LeafHashes(s, items))
  }

  /** Every string hashed while folding `proof` from `leaf`. */
  ghost function ClimbStrings(s: Scheme, leaf: Hash, proof: seq<Hash>): set<seq<byte>> {
    set k | 0 <= k < |proof| :: ParentBytes(s, Climb(s, leaf, proof[..k]), proof[k])
  }

  // ------------------------------------------------------------ completeness

  /** Hashing a node with its sibling, in their order in the level, gives their parent. */
  lemma PairMakesParent(s: Scheme, leaves: seq<Hash>, h: nat, j: nat)
    requires j < Width(|leaves|, h)
    ensures j / 2 < Width(|leaves|, h + 1)
    ensures var node := Subtree(s, leaves, h, j);
            var sibling := Subtree(s, leaves, h, SiblingIndex(|leaves|, h, j));
            var (l, r) := if j % 2 == 0 then (node, sibling) else (sibling, node);
            l == LeftChild(s, leaves, h + 1, j / 2) && r == RightChild(s, leaves, h + 1, j / 2)
  {
  }

  lemma SortedParentCommutes(s: Scheme, l: Hash, r: Hash)
    requires s.sorted
    ensures Parent(s, l, r) == Parent(s, r, l)
  {
    ParentBytesBinding(s, l, r, r, l);
  }

  /** `proof` lists the siblings of leaf `i`, from the leaves up, in the recursive tree over `leaves`. */
  ghost predicate IsProofOf(s: Scheme, leaves: seq<Hash>, i: nat, proof: seq<Hash>)
    requires i < |leaves|
  {
    && |proof| == Height(|leaves|)
    && forall h :: 0 <= h < |proof| ==>
         && Ancestor(i, h) < Width(|leaves|, h)
         && proof[h] == Subtree(s, leaves, h, SiblingIndex(|leaves|, h, Ancestor(i, h)))
  }

  /** What `get_proof` takes from the flat array is the proof in the recursive tree. */
  lemma StoredProof(s: Scheme, leaves: seq<Hash>, mt: MerkleTree, i: nat, proof: seq<Hash>)
    requires Built(s, leaves, mt) && i < |leaves| && |proof| == Height(|leaves|)
    requires forall h :: 0 <= h < |proof| ==> proof[h] == SiblingAt(mt, i, h)
    ensures IsProofOf(s, leaves, i, proof)
  {
    forall h | 0 <= h < |proof|
      ensures Ancestor(i, h) < Width(|leaves|, h)
      ensures proof[h] == Subtree(s, leaves, h, SiblingIndex(|leaves|, h, Ancestor(i, h)))
    {
      AncestorInLevel(|leaves|, i, h);
      assert proof[h] == SiblingAt(mt, i, h);
    }
  }

  lemma {:induction false} ClimbReachesAncestor(s: Scheme, leaves: seq<Hash>, i: nat, proof: seq<Hash>, h: nat)
    requires s.sorted && i < |leaves| && IsProofOf(s, leaves, i, proof) && h <= |proof|
    ensures Ancestor(i, h) < Width(|leaves|, h)
    ensures Climb(s, leaves[i], proof[..h]) == Subtree(s, leaves, h, Ancestor(i, h))
  {
    AncestorInLevel(|leaves|, i, h);
    if h > 0 {
      var j := Ancestor(i, h - 1);
      ClimbReachesAncestor(s, leaves, i, proof, h - 1);
      PairMakesParent(s, leaves, h - 1, j);
      assert proof[..h][..h - 1] == proof[..h - 1];
      SortedParentCommutes(s, Subtree(s, leaves, h - 1, j), proof[h - 1]);
    }
  }

  lemma AncestorAtTop(n: nat, i: nat)
    requires i < n
    ensures Ancestor(i, Height(n)) == 0
  {
    WidthUpToHeight(n, Height(n));
    AncestorInLevel(n, i, Height(n));
  }

  /** Proof completeness: the proof of a leaf folds to the root, at every index of every tree size. */
  lemma ProofCompleteness(s: Scheme, leaves: seq<Hash>, i: nat, proof: seq<Hash>)
    requires s.sorted && i < |leaves| && IsProofOf(s, leaves, i, proof)
    ensures Climb(s, leaves[i], proof) == Root(s, leaves)
  {
    ClimbReachesAncestor(s, leaves, i, proof, |proof|);
    assert proof[..|proof|] == proof;
    AncestorAtTop(|leaves|, i);
  }

  // --------------------------------------------------------------- exactness

  lemma {:induction false} ClimbInjective(s: Scheme, c: Hash, d: Hash, proof: seq<Hash>)
    requires s.sorted && NoCollision(s, ClimbStrings(s, c, proof) + ClimbStrings(s, d, proof))
    requires Climb(s, c, proof) == Climb(s, d, proof)
    ensures c == d
  {
    if proof != [] {
      var k := |proof| - 1;
      var below := proof[..k];
      ClimbStringsPrefix(s, c, proof);
      ClimbStringsPrefix(s, d, proof);
      var x, y := Climb(s, c, below), Climb(s, d, below);
      assert ParentBytes(s, x, proof[k]) in ClimbStrings(s, c, proof);
      assert ParentBytes(s, y, proof[k]) in ClimbStrings(s, d, proof);
      ParentBytesBinding(s, x, proof[k], y, proof[k]);
      ClimbInjective(s, c, d, below);
    }
  }

  lemma ClimbStringsPrefix(s: Scheme, c: Hash, proof: seq<Hash>)
    requires proof != []
    ensures ClimbStrings(s, c, proof[..|proof| - 1]) <= ClimbStrings(s, c, proof)
  {
    var below := proof[..|proof| - 1];
    forall k | 0 <= k < |below|
      ensures ParentBytes(s, Climb(s, c, below[..k]), below[k]) in ClimbStrings(s, c, proof)
    {
      assert below[..k] == proof[..k];
    }
  }

  /** The proof of leaf `i` is accepted for the hash of that leaf and for no other. */
  lemma ProofExactness(s: Scheme, leaves: seq<Hash>, i: nat, proof: seq<Hash>, c: Hash)
    requires s.sorted && i < |leaves| && IsProofOf(s, leaves, i, proof)
    requires NoCollision(s, ClimbStrings(s, c, proof) + ClimbStrings(s, leaves[i], proof))
    ensures Climb(s, c, proof) == Root(s, leaves) <==> c == leaves[i]
  {
    ProofCompleteness(s, leaves, i, proof);
    if Climb(s, c, proof) == Climb(s, leaves[i], proof) {
      ClimbInjective(s, c, leaves[i], proof);
    }
  }

  // -------------------------------------------- membership and root binding

  /** The tree under a node, with the last node of an odd level standing in both places. */
  datatype Tree = Leaf(item: seq<byte>) | Branch(left: Tree, right: Tree)

  function HashTree(s: Scheme, t: Tree): Hash {
    match t
    case Leaf(item) => LeafHash(s, item)
    case Branch(left, right) => Parent(s, HashTree(s, left), HashTree(s, right))
  }

  ghost function HashedIn(s: Scheme, t: Tree): set<seq<byte>> {
    match t
    case Leaf(item) => {LeafBytes(item)}
    case Branch(left, right) =>
      {ParentBytes(s, HashTree(s, left), HashTree(s, right))} + HashedIn(s, left) + HashedIn(s, right)
  }

  ghost function ItemsIn(t: Tree): set<seq<byte>> {
    match t
    case Leaf(item) => {item}
    case Branch(left, right) => ItemsIn(left) + ItemsIn(right)
  }

  /** One tree becomes the other by swapping the two children of any of its branches. */
  predicate UpToSwaps(t: Tree, u: Tree) {
    match (t, u)
    case (Leaf(x), Leaf(y)) => x == y
    case (Branch(l, r), Branch(l', r')) =>
      (UpToSwaps(l, l') && UpToSwaps(r, r')) || (UpToSwaps(l, r') && UpToSwaps(r, l'))
    case _ => false
  }

  lemma {:induction false} SwapsKeepItems(t: Tree, u: Tree)
    requires UpToSwaps(t, u)
    ensures ItemsIn(t) == ItemsIn(u)
  {
    if t.Branch? {
      if UpToSwaps(t.left, u.left) && UpToSwaps(t.right, u.right) {
        SwapsKeepItems(t.left, u.left);
        SwapsKeepItems(t.right, u.right);
      } else {
        SwapsKeepItems(t.left, u.right);
        SwapsKeepItems(t.right, u.left);
      }
    }
  }

  lemma {:induction false} SwapsKeepHash(s: Scheme, t: Tree, u: Tree)
    requires s.sorted && UpToSwaps(t, u)
    ensures HashTree(s, t) == HashTree(s, u)
  {
    if t.Branch? {
      if UpToSwaps(t.left, u.left) && UpToSwaps(t.right, u.right) {
        SwapsKeepHash(s, t.left, u.left);
        SwapsKeepHash(s, t.right, u.right);
      } else {
        SwapsKeepHash(s, t.left, u.right);
        SwapsKeepHash(s, t.right, u.left);
        SortedParentCommutes(s, HashTree(s, t.left), HashTree(s, t.right));
      }
    }
  }

  /** Trees with one hash are the same tree up to swapped children. */
  lemma {:induction false} EqualHashes(s: Scheme, t: Tree, u: Tree, strings: set<seq<byte>>)
    requires s.sorted && NoCollision(s, strings)
    requires HashedIn(s, t) <= strings && HashedIn(s, u) <= strings
    requires HashTree(s, t) == HashTree(s, u)
    ensures UpToSwaps(t, u)
  {
    match (t, u)
    case (Leaf(x), Leaf(y)) =>
      assert LeafBytes(x)[1..] == x && LeafBytes(y)[1..] == y;
    case (Leaf(x), Branch(l, r)) =>
      PrefixesDiffer(s, x, HashTree(s, l), HashTree(s, r));
    case (Branch(l, r), Leaf(y)) =>
      PrefixesDiffer(s, y, HashTree(s, l), HashTree(s, r));
    case (Branch(l, r), Branch(l', r')) =>
      ParentBytesBinding(s, HashTree(s, l), HashTree(s, r), HashTree(s, l'), HashTree(s, r'));
      if HashTree(s, l) == HashTree(s, l') && HashTree(s, r) == HashTree(s, r') {
        EqualHashes(s, l, l', strings);
        EqualHashes(s, r, r', strings);
      } else {
        EqualHashes(s, l, r', strings);
        EqualHashes(s, r, l', strings);
      }
  }

  /** Folding any proof from an item to the hash of a tree means the item stands in the tree. */
  lemma {:induction false} MemberOfTree(s: Scheme, t: Tree, x: seq<byte>, proof: seq<Hash>, strings: set<seq<byte>>)
    requires s.sorted && NoCollision(s, strings)
    requires HashedIn(s, t) <= strings && LeafBytes(x) in strings && ClimbStrings(s, LeafHash(s, x), proof) <= strings
    requires Climb(s, LeafHash(s, x), proof) == HashTree(s, t)
    ensures x in ItemsIn(t)
    decreases |proof|
  {
    if proof == [] {
      MemberAtLeaf(s, t, x, strings);
    } else {
      var k := |proof| - 1;
      var v := Climb(s, LeafHash(s, x), proof[..k]);
      assert ParentBytes(s, v, proof[k]) in ClimbStrings(s, LeafHash(s, x), proof);
      match t
      case Leaf(y) =>
        PrefixesDiffer(s, y, v, proof[k]);
      case Branch(l, r) =>
        ParentBytesBinding(s, v, proof[k], HashTree(s, l), HashTree(s, r));
        ClimbStringsPrefix(s, LeafHash(s, x), proof);
        MemberOfTree(s, if v == HashTree(s, l) then l else r, x, proof[..k], strings);
    }
  }

  lemma MemberAtLeaf(s: Scheme, t: Tree, x: seq<byte>, strings: set<seq<byte>>)
    requires NoCollision(s, strings) && HashedIn(s, t) <= strings && LeafBytes(x) in strings
    requires LeafHash(s, x) == HashTree(s, t)
    ensures x in ItemsIn(t)
  {
    match t
    case Leaf(y) =>
      assert LeafBytes(x)[1..] == x && LeafBytes(y)[1..] == y;
    case Branch(l, r) =>
      PrefixesDiffer(s, x, HashTree(s, l), HashTree(s, r));
  }

  /** Node `i` of level `h` over `items`. */
  function TreeAt(items: seq<seq<byte>>, h: nat, i: nat): Tree
    requires i < Width(|items|, h)
  {
    if h == 0 then Leaf(items[i]) else
    Branch(TreeAt(items, h - 1, 2 * i),
           if 2 * i + 1 < Width(|items|, h - 1) then TreeAt(items, h - 1, 2 * i + 1) else TreeAt(items, h - 1, 2 * i))
  }

  lemma {:induction false} TreeAtHash(s: Scheme, items: seq<seq<byte>>, h: nat, i: nat)
    requires i < Width(|items|, h)
    ensures HashTree(s, TreeAt(items, h, i)) == Subtree(s, LeafHashes(s, items), h, i)
  {
    if h > 0 {
      TreeAtHash(s, items, h - 1, 2 * i);
      if 2 * i + 1 < Width(|items|, h - 1) {
        TreeAtHash(s, items, h - 1, 2 * i + 1);
      }
    }
  }

  /** The string that is hashed for the root of `t`. */
  function OwnString(s: Scheme, t: Tree): seq<byte> {
    match t
    case Leaf(item) => LeafBytes(item)
    case Branch(left, right) => ParentBytes(s, HashTree(s, left), HashTree(s, right))
  }

  predicate All(t: Tree, ok: Tree -> bool) {
    ok(t) && (t.Branch? ==> All(t.left, ok) && All(t.right, ok))
  }

  /** The subtrees of a node are nodes. */
  lemma {:induction false} AllNodes(items: seq<seq<byte>>, ok: Tree -> bool, h: nat, i: nat)
    requires h <= Height(|items|) && i < Width(|items|, h)
    requires forall g: nat, j: nat :: g <= Height(|items|) && j < Width(|items|, g) ==> ok(TreeAt(items, g, j))
    ensures All(TreeAt(items, h, i), ok)
    decreases h
  {
    if h > 0 {
      AllNodes(items, ok, h - 1, 2 * i);
      if 2 * i + 1 < Width(|items|, h - 1) {
        AllNodes(items, ok, h - 1, 2 * i + 1);
      }
    }
  }

  ghost function StringIn(s: Scheme, strings: set<seq<byte>>): Tree -> bool {
    (t: Tree) => OwnString(s, t) in strings
  }

  lemma {:induction false} AllStrings(s: Scheme, t: Tree, strings: set<seq<byte>>)
    requires All(t, StringIn(s, strings))
    ensures HashedIn(s, t) <= strings
  {
    if t.Branch? {
      AllStrings(s, t.left, strings);
      AllStrings(s, t.right, strings);
    }
  }

  lemma BranchHashes(s: Scheme, items: seq<seq<byte>>, h: nat, i: nat)
    requires 0 < h && i < Width(|items|, h)
    ensures var t, leaves := TreeAt(items, h, i), LeafHashes(s, items);
            t.Branch? && HashTree(s, t.left) == LeftChild(s, leaves, h, i)
            && HashTree(s, t.right) == RightChild(s, leaves, h, i)
  {
    TreeAtHash(s, items, h - 1, 2 * i);
    if 2 * i + 1 < Width(|items|, h - 1) {
      TreeAtHash(s, items, h - 1, 2 * i + 1);
    }
  }

  lemma NodeOwnString(s: Scheme, items: seq<seq<byte>>, h: nat, i: nat)
    requires h <= Height(|items|) && i < Width(|items|, h)
    ensures OwnString(s, TreeAt(items, h, i))
         == if h == 0 then LeafBytes(items[i]) else NodeString(s, LeafHashes(s, items), h, i)
  {
    if h > 0 {
      BranchHashes(s, items, h, i);
    }
  }

  lemma NodeStringIn(s: Scheme, items: seq<seq<byte>>, h: nat, i: nat)
    requires h <= Height(|items|) && i < Width(|items|, h)
    ensures StringIn(s, TreeStrings(s, items))(TreeAt(items, h, i))
  {
    NodeOwnString(s, items, h, i);
    if h == 0 {
      assert LeafBytes(items[i]) in LeafStrings(items);
    } else {
      var leaves := LeafHashes(s, items);
      assert NodeString(s, leaves, h, i) in NodeStrings(s, leaves);
    }
  }

  lemma TreeAtStrings(s: Scheme, items: seq<seq<byte>>, h: nat, i: nat)
    requires h <= Height(|items|) && i < Width(|items|, h)
    ensures HashedIn(s, TreeAt(items, h, i)) <= TreeStrings(s, items)
  {
    forall g: nat, j: nat | g <= Height(|items|) && j < Width(|items|, g)
      ensures StringIn(s, TreeStrings(s, items))(TreeAt(items, g, j))
    {
      NodeStringIn(s, items, g, j);
    }
    AllNodes(items, StringIn(s, TreeStrings(s, items)), h, i);
    AllStrings(s, TreeAt(items, h, i), TreeStrings(s, items));
  }

  lemma {:induction false} ItemUnderAncestor(items: seq<seq<byte>>, k: nat, h: nat)
    requires k < |items|
    ensures Ancestor(k, h) < Width(|items|, h) && items[k] in ItemsIn(TreeAt(items, h, Ancestor(k, h)))
  {
    AncestorInLevel(|items|, k, h);
    if h > 0 {
      ItemUnderAncestor(items, k, h - 1);
    }
  }

  lemma {:induction false} ItemsInAreItems(items: seq<seq<byte>>, h: nat, i: nat, x: seq<byte>)
    requires i < Width(|items|, h) && x in ItemsIn(TreeAt(items, h, i))
    ensures x in items
    decreases h
  {
    if h > 0 {
      if x in ItemsIn(TreeAt(items, h - 1, 2 * i)) {
        ItemsInAreItems(items, h - 1, 2 * i, x);
      } else {
        ItemsInAreItems(items, h - 1, 2 * i + 1, x);
      }
    }
  }

  /** The whole tree over `items`. */
  function TopTree(items: seq<seq<byte>>): Tree
    requires items != []
  {
    WidthUpToHeight(|items|, Height(|items|));
    TreeAt(items, Height(|items|), 0)
  }

  lemma TopTreeItems(items: seq<seq<byte>>, x: seq<byte>)
    requires items != []
    ensures x in ItemsIn(TopTree(items)) <==> x in items
  {
    WidthUpToHeight(|items|, Height(|items|));
    if x in items {
      var k :| 0 <= k < |items| && items[k] == x;
      ItemUnderAncestor(items, k, Height(|items|));
    } else if x in ItemsIn(TopTree(items)) {
      ItemsInAreItems(items, Height(|items|), 0, x);
    }
  }

  lemma TopTreeRoot(s: Scheme, items: seq<seq<byte>>)
    requires items != []
    ensures HashTree(s, TopTree(items)) == Root(s, LeafHashes(s, items))
    ensures HashedIn(s, TopTree(items)) <= TreeStrings(s, items)
  {
    WidthUpToHeight(|items|, Height(|items|));
    TreeAtHash(s, items, Height(|items|), 0);
    TreeAtStrings(s, items, Height(|items|), 0);
  }

  /** Membership: whatever proof of whatever length is presented with `x`, reaching the root means `x` is a leaf.
      Intermediate nodes cannot pass for leaves because their strings start with another byte. */
  lemma ProofSoundness(s: Scheme, items: seq<seq<byte>>, x: seq<byte>, proof: seq<Hash>)
    requires s.sorted && items != []
    requires NoCollision(s, TreeStrings(s, items) + {LeafBytes(x)} + ClimbStrings(s, LeafHash(s, x), proof))
    requires Climb(s, LeafHash(s, x), proof) == Root(s, LeafHashes(s, items))
    ensures x in items
  {
    TopTreeRoot(s, items);
    MemberOfTree(s, TopTree(items), x, proof, TreeStrings(s, items) + {LeafBytes(x)}
                 + ClimbStrings(s, LeafHash(s, x), proof));
    TopTreeItems(items, x);
  }

  /** Root binding: two trees have the same root exactly when they are the same tree up to swapped children, whatever
      their numbers of leaves. */
  lemma RootBinding(s: Scheme, a: seq<seq<byte>>, b: seq<seq<byte>>)
    requires s.sorted && a != [] && b != []
    requires NoCollision(s, TreeStrings(s, a) + TreeStrings(s, b))
    ensures Root(s, LeafHashes(s, a)) == Root(s, LeafHashes(s, b)) <==> UpToSwaps(TopTree(a), TopTree(b))
  {
    TopTreeRoot(s, a);
    TopTreeRoot(s, b);
    if UpToSwaps(TopTree(a), TopTree(b)) {
      SwapsKeepHash(s, TopTree(a), TopTree(b));
    } else if HashTree(s, TopTree(a)) == HashTree(s, TopTree(b)) {
      EqualHashes(s, TopTree(a), TopTree(b), TreeStrings(s, a) + TreeStrings(s, b));
    }
  }

  /** In particular trees with one root have the same set of items. */
  lemma RootBindsItems(s: Scheme, a: seq<seq<byte>>, b: seq<seq<byte>>)
    requires s.sorted && a != [] && b != []
    requires NoCollision(s, TreeStrings(s, a) + TreeStrings(s, b))
    requires Root(s, LeafHashes(s, a)) == Root(s, LeafHashes(s, b))
    ensures forall x :: x in a <==> x in b
  {
    RootBinding(s, a, b);
    SwapsKeepItems(TopTree(a), TopTree(b));
    forall x
      ensures x in a <==> x in b
    {
      TopTreeItems(a, x);
      TopTreeItems(b, x);
    }
  }

  /** A root does not tell how often a leaf occurs or where: these lists differ and have one root, because each odd
      level repeats its last node and children may be swapped. */
  lemma RootForgetsMultiplicity(s: Scheme, x: seq<byte>, y: seq<byte>)
    requires s.sorted
    ensures Root(s, LeafHashes(s, [x, x, y])) == Root(s, LeafHashes(s, [x, x, y, y]))
    ensures Root(s, LeafHashes(s, [x, x, y])) == Root(s, LeafHashes(s, [y, y, x]))
  {
    var p, q := LeafHash(s, x), LeafHash(s, y);
    var xx, yy := Parent(s, p, p), Parent(s, q, q);
    RootOfThree(s, [p, p, q]);
    RootOfThree(s, [q, q, p]);
    assert LeafHashes(s, [x, x, y]) == [p, p, q];
    assert LeafHashes(s, [y, y, x]) == [q, q, p];
    assert LeafHashes(s, [x, x, y, y]) == [p, p, q, q];
    SortedParentCommutes(s, xx, yy);
    RootOfFour(s, [p, p, q, q]);
  }

  /** But it tells more than the set of leaves: these lists hold the same leaves once each and differ in their roots,
      because no swap of children takes a leaf to another pair. */
  lemma RootTellsPairs(s: Scheme, a: seq<seq<byte>>, b: seq<seq<byte>>)
    requires s.sorted && |a| == |b| == 4 && b[0] == a[0] && b[1] == a[2] && b[2] == a[1] && b[3] == a[3]
    requires forall i, j :: 0 <= i < j < 4 ==> a[i] != a[j]
    requires NoCollision(s, TreeStrings(s, a) + TreeStrings(s, b))
    ensures Root(s, LeafHashes(s, a)) != Root(s, LeafHashes(s, b))
  {
    TopTreeOfFour(a);
    TopTreeOfFour(b);
    PairsNotSwapped(Leaf(a[0]), Leaf(a[1]), Leaf(a[2]), Leaf(a[3]));
    RootBinding(s, a, b);
  }

  lemma PairsNotSwapped(p: Tree, q: Tree, r: Tree, t: Tree)
    requires p.Leaf? && q.Leaf? && r.Leaf? && t.Leaf? && p != q && p != r && p != t && q != r && q != t && r != t
    ensures !UpToSwaps(Branch(Branch(p, q), Branch(r, t)), Branch(Branch(p, r), Branch(q, t)))
  {
    assert !UpToSwaps(p, r) && !UpToSwaps(p, q) && !UpToSwaps(p, t) && !UpToSwaps(q, r) && !UpToSwaps(q, t);
    assert !UpToSwaps(Branch(p, q), Branch(p, r)) && !UpToSwaps(Branch(p, q), Branch(q, t));
  }

  lemma TopTreeOfFour(p: seq<seq<byte>>)
    requires |p| == 4
    ensures TopTree(p) == Branch(Branch(Leaf(p[0]), Leaf(p[1])), Branch(Leaf(p[2]), Leaf(p[3])))
  {
    assert Height(4) == 1 + Height(2) && Height(2) == 1 + Height(1);
    assert Width(4, 0) == 4 && Width(4, 1) == 2 && Width(4, 2) == 1;
    assert TreeAt(p, 1, 0) == Branch(Leaf(p[0]), Leaf(p[1]));
    assert TreeAt(p, 1, 1) == Branch(Leaf(p[2]), Leaf(p[3]));
  }

  lemma RootOfThree(s: Scheme, p: seq<Hash>)
    requires |p| == 3
    ensures Root(s, p) == Parent(s, Parent(s, p[0], p[1]), Parent(s, p[2], p[2]))
  {
    assert Height(3) == 1 + Height(2) && Height(2) == 1 + Height(1);
    assert Width(3, 0) == 3 && Width(3, 1) == 2 && Width(3, 2) == 1;
    assert Subtree(s, p, 1, 0) == Parent(s, p[0], p[1]);
    assert Subtree(s, p, 1, 1) == Parent(s, p[2], p[2]);
  }

  lemma RootOfFour(s: Scheme, p: seq<Hash>)
    requires |p| == 4
    ensures Root(s, p) == Parent(s, Parent(s, p[0], p[1]), Parent(s, p[2], p[3]))
  {
    assert Height(4) == 1 + Height(2) && Height(2) == 1 + Height(1);
    assert Width(4, 0) == 4 && Width(4, 1) == 2 && Width(4, 2) == 1;
    assert Subtree(s, p, 1, 0) == Parent(s, p[0], p[1]);
    assert Subtree(s, p, 1, 1) == Parent(s, p[2], p[3]);
  }

  // ------------------------------------------------------ Proof::verify

  /** The path entry from the ancestor of leaf `i` on level `h`, in the recursive tree. */
  function TreeEntry(s: Scheme, leaves: seq<Hash>, i: nat, h: nat): ProofEntry
    requires i < |leaves| && h < Height(|leaves|)
  {
    AncestorInLevel(|leaves|, i, h);
    AncestorInLevel(|leaves|, i, h + 1);
    var j := Ancestor(i, h);
    var sibling := Subtree(s, leaves, h, SiblingIndex(|leaves|, h, j));
    var parent := Subtree(s, leaves, h + 1, Ancestor(i, h + 1));
    if j % 2 == 0 then NewProofEntry(parent, None, Some(sibling)) else NewProofEntry(parent, Some(sibling), None)
  }

  ghost predicate IsPathOf(s: Scheme, leaves: seq<Hash>, i: nat, path: seq<ProofEntry>)
    requires i < |leaves|
  {
    |path| == Height(|leaves|) && forall h :: 0 <= h < |path| ==> path[h] == TreeEntry(s, leaves, i, h)
  }

  /** What `find_path` takes from the flat array is the path in the recursive tree. */
  lemma StoredPath(s: Scheme, leaves: seq<Hash>, mt: MerkleTree, i: nat, path: seq<ProofEntry>)
    requires Built(s, leaves, mt) && i < |leaves| && |path| == Height(|leaves|)
    requires forall h :: 0 <= h < |path| ==> path[h] == PathEntry(mt, i, h)
    ensures IsPathOf(s, leaves, i, path)
  {
    forall h | 0 <= h < |path|
      ensures path[h] == TreeEntry(s, leaves, i, h)
    {
      AncestorInLevel(|leaves|, i, h);
      AncestorInLevel(|leaves|, i, h + 1);
    }
  }

  /** The ancestor of leaf `i` on level `h`. */
  function AncestorHash(s: Scheme, leaves: seq<Hash>, i: nat, h: nat): Hash
    requires i < |leaves|
  {
    AncestorInLevel(|leaves|, i, h);
    Subtree(s, leaves, h, Ancestor(i, h))
  }

  function PairLeft(s: Scheme, leaves: seq<Hash>, i: nat, h: nat): Hash
    requires i < |leaves|
  {
    AncestorInLevel(|leaves|, i, h + 1);
    LeftChild(s, leaves, h + 1, Ancestor(i, h + 1))
  }

  function PairRight(s: Scheme, leaves: seq<Hash>, i: nat, h: nat): Hash
    requires i < |leaves|
  {
    AncestorInLevel(|leaves|, i, h + 1);
    RightChild(s, leaves, h + 1, Ancestor(i, h + 1))
  }

  /** `verify` hashes the ancestor of leaf `i` and its sibling, left before right, and expects their parent. */
  lemma EntryTarget(s: Scheme, leaves: seq<Hash>, i: nat, h: nat)
    requires i < |leaves| && h < Height(|leaves|)
    ensures var entry := TreeEntry(s, leaves, i, h);
            && entry.target == AncestorHash(s, leaves, i, h + 1)
            && entry.target == Parent(s, PairLeft(s, leaves, i, h), PairRight(s, leaves, i, h))
            && EntryBytes(entry, AncestorHash(s, leaves, i, h))
               == NodeBytes(PairLeft(s, leaves, i, h), PairRight(s, leaves, i, h))
  {
    AncestorInLevel(|leaves|, i, h);
    AncestorInLevel(|leaves|, i, h + 1);
    PairMakesParent(s, leaves, h, Ancestor(i, h));
  }

  /** A path verifies a node when each entry accepts the node below it and hands on its target. */
  lemma {:induction false} VerifyIff(s: Scheme, path: seq<ProofEntry>, node: nat -> Hash, accepts: nat -> bool, h: nat)
    requires h <= |path|
    requires forall k: nat :: k < |path| ==> path[k].target == node(k + 1)
    requires forall k: nat :: k < |path| ==> (s.digest(EntryBytes(path[k], node(k))) == path[k].target <==> accepts(k))
    ensures Verify(s, path[h..], node(h)) <==> forall k: nat :: h <= k < |path| ==> accepts(k)
    decreases |path| - h
  {
    if h < |path| {
      VerifyIff(s, path, node, accepts, h + 1);
      assert path[h..][0] == path[h] && path[h..][1..] == path[h + 1..];
    }
  }

  lemma UnsortedPathVerifies(s: Scheme, leaves: seq<Hash>, i: nat, path: seq<ProofEntry>)
    requires !s.sorted && i < |leaves| && IsPathOf(s, leaves, i, path)
    ensures Verify(s, path, leaves[i])
  {
    var node := (h: nat) => AncestorHash(s, leaves, i, h);
    forall h: nat | h < |path|
      ensures path[h].target == node(h + 1) && s.digest(EntryBytes(path[h], node(h))) == path[h].target
    {
      EntryTarget(s, leaves, i, h);
    }
    VerifyIff(s, path, node, h => true, 0);
    assert path[0..] == path;
  }

  /** Verify exactness for unsorted trees: the path of leaf `i` verifies the hash of that leaf and, from two
      leaves on, nothing else. The path of a one-leaf tree is empty and verifies every candidate. */
  lemma VerifyExactness(s: Scheme, leaves: seq<Hash>, i: nat, path: seq<ProofEntry>, c: Hash)
    requires !s.sorted && i < |leaves| && IsPathOf(s, leaves, i, path)
    requires path != [] ==> NoCollision(s, {EntryBytes(path[0], c), EntryBytes(path[0], leaves[i])})
    ensures Verify(s, path, c) <==> |leaves| == 1 || c == leaves[i]
  {
    UnsortedPathVerifies(s, leaves, i, path);
    if |leaves| > 1 && Verify(s, path, c) {
      EntryTarget(s, leaves, i, 0);
      assert s.digest(EntryBytes(path[0], c)) == s.digest(EntryBytes(path[0], leaves[i]));
      EntryBytesInjective(path[0], c, leaves[i]);
    }
  }

  lemma EntryBytesInjective(entry: ProofEntry, c: Hash, d: Hash)
    requires entry.leftSibling.None? != entry.rightSibling.None?
    requires EntryBytes(entry, c) == EntryBytes(entry, d)
    ensures c == d
  {
    NodeBytesInjective(entry.leftSibling.GetOr(c), entry.rightSibling.GetOr(c),
                       entry.leftSibling.GetOr(d), entry.rightSibling.GetOr(d));
  }

  /** Whether the pair of the path of leaf `i` on level `h` is already in hash order. */
  predicate PairInOrder(s: Scheme, leaves: seq<Hash>, i: nat, h: nat)
    requires i < |leaves|
  {
    LexLe(PairLeft(s, leaves, i, h), PairRight(s, leaves, i, h))
  }

  /** The pairs of the path of leaf `i`, hashed in either order. */
  ghost function PairStrings(s: Scheme, leaves: seq<Hash>, i: nat): set<seq<byte>>
    requires i < |leaves|
  {
    (set h | 0 <= h < Height(|leaves|) :: NodeBytes(PairLeft(s, leaves, i, h), PairRight(s, leaves, i, h)))
    + (set h | 0 <= h < Height(|leaves|) :: NodeBytes(PairRight(s, leaves, i, h), PairLeft(s, leaves, i, h)))
  }

  /** An entry of a sorted tree accepts its own node exactly when its pair did not have to be swapped. */
  lemma EntryAccepts(s: Scheme, leaves: seq<Hash>, i: nat, h: nat)
    requires s.sorted && i < |leaves| && h < Height(|leaves|)
    requires NoCollision(s, PairStrings(s, leaves, i))
    ensures s.digest(EntryBytes(TreeEntry(s, leaves, i, h), AncestorHash(s, leaves, i, h)))
         == TreeEntry(s, leaves, i, h).target
       <==> PairInOrder(s, leaves, i, h)
  {
    EntryTarget(s, leaves, i, h);
    var l, r := PairLeft(s, leaves, i, h), PairRight(s, leaves, i, h);
    assert NodeBytes(l, r) in PairStrings(s, leaves, i);
    assert NodeBytes(r, l) in PairStrings(s, leaves, i);
    if !LexLe(l, r) && s.digest(NodeBytes(l, r)) == s.digest(NodeBytes(r, l)) {
      NodeBytesInjective(l, r, r, l);
      LexTotal(l, r);
    }
  }

  lemma SortedPathVerifies(s: Scheme, leaves: seq<Hash>, i: nat, path: seq<ProofEntry>)
    requires s.sorted && i < |leaves| && IsPathOf(s, leaves, i, path)
    requires NoCollision(s, PairStrings(s, leaves, i))
    ensures Verify(s, path, leaves[i]) <==> forall k :: 0 <= k < |path| ==> PairInOrder(s, leaves, i, k)
  {
    var node := (h: nat) => AncestorHash(s, leaves, i, h);
    var accepts := (h: nat) => PairInOrder(s, leaves, i, h);
    forall h: nat | h < |path|
      ensures path[h].target == node(h + 1)
      ensures s.digest(EntryBytes(path[h], node(h))) == path[h].target <==> accepts(h)
    {
      EntryTarget(s, leaves, i, h);
      EntryAccepts(s, leaves, i, h);
    }
    VerifyIff(s, path, node, accepts, 0);
    assert path[0..] == path;
    assert forall k: nat :: 0 <= k < |path| ==> (accepts(k) <==> PairInOrder(s, leaves, i, k));
  }

  lemma CandidateIsNode(entry: ProofEntry, c: Hash, node: Hash, l: Hash, r: Hash)
    requires entry.leftSibling.None? != entry.rightSibling.None?
    requires EntryBytes(entry, node) == NodeBytes(l, r)
    requires EntryBytes(entry, c) == NodeBytes(l, r) || EntryBytes(entry, c) == NodeBytes(r, l)
    ensures c == node
  {
    var left, right := entry.leftSibling.GetOr(c), entry.rightSibling.GetOr(c);
    NodeBytesInjective(entry.leftSibling.GetOr(node), entry.rightSibling.GetOr(node), l, r);
    if EntryBytes(entry, c) == NodeBytes(l, r) {
      NodeBytesInjective(left, right, l, r);
    } else {
      NodeBytesInjective(left, right, r, l);
    }
  }

  /** The first entry of a sorted tree's path accepts no other candidate than the leaf, swapped or not. */
  lemma FirstEntryAccepts(s: Scheme, leaves: seq<Hash>, i: nat, entry: ProofEntry, c: Hash)
    requires s.sorted && i < |leaves| && 0 < Height(|leaves|) && entry == TreeEntry(s, leaves, i, 0)
    requires NoCollision(s, PairStrings(s, leaves, i) + {EntryBytes(entry, c)})
    requires s.digest(EntryBytes(entry, c)) == entry.target
    ensures c == leaves[i]
  {
    EntryTarget(s, leaves, i, 0);
    var l, r := PairLeft(s, leaves, i, 0), PairRight(s, leaves, i, 0);
    assert NodeBytes(l, r) in PairStrings(s, leaves, i);
    assert NodeBytes(r, l) in PairStrings(s, leaves, i);
    assert ParentBytes(s, l, r) == NodeBytes(l, r) || ParentBytes(s, l, r) == NodeBytes(r, l);
    CandidateIsNode(entry, c, AncestorHash(s, leaves, i, 0), l, r);
  }

  /** On a sorted tree `verify` ignores the sorting: from two leaves on, the path of leaf `i` accepts a candidate
      exactly when it is the hash of that leaf and no pair on the path had to be swapped. */
  lemma VerifyOnSortedTree(s: Scheme, leaves: seq<Hash>, i: nat, path: seq<ProofEntry>, c: Hash)
    requires s.sorted && i < |leaves| && IsPathOf(s, leaves, i, path)
    requires NoCollision(s, PairStrings(s, leaves, i) + if path == [] then {} else {EntryBytes(path[0], c)})
    ensures Verify(s, path, c) <==>
              |leaves| == 1 || (c == leaves[i] && forall k :: 0 <= k < |path| ==> PairInOrder(s, leaves, i, k))
  {
    SortedPathVerifies(s, leaves, i, path);
    if |leaves| > 1 && Verify(s, path, c) {
      FirstEntryAccepts(s, leaves, i, path[0], c);
    }
  }

  /** So a sorted tree's own path can fail: two leaves out of order, and the path of the first. */
  lemma SwappedPairFails(s: Scheme, x: Hash, y: Hash, path: seq<ProofEntry>)
    requires s.sorted && !LexLe(x, y) && IsPathOf(s, [x, y], 0, path)
    requires NoCollision(s, {NodeBytes(x, y), NodeBytes(y, x)})
    ensures !Verify(s, path, x)
  {
    assert Height(2) == 1 + Height(1) && Width(2, 0) == 2 && Width(2, 1) == 1;
    assert Ancestor(0, 1) == 0;
    assert PairLeft(s, [x, y], 0, 0) == x && PairRight(s, [x, y], 0, 0) == y;
    assert PairStrings(s, [x, y], 0) <= {NodeBytes(x, y), NodeBytes(y, x)};
    SortedPathVerifies(s, [x, y], 0, path);
    assert !PairInOrder(s, [x, y], 0, 0);
  }
}
