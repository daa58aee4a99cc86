/** The Merkle tree of merkle-tree/src/lib.rs: a flat array holding every level, leaves first,
    the last node of an odd level being hashed with itself. */
module MerkleTrees {
  import opened Wrappers
  import opened Bytes

  /** `digest` stands for SHA-256 over the concatenation of the slices given to `hashv`. */
  datatype Scheme = Scheme(digest: seq<byte> -> Hash, sorted: bool)

  // ---------------------------------------------------------------- hashing

  function LeafBytes(item: seq<byte>): seq<byte> {
    [0] + item
  }

  function LeafHash(s: Scheme, item: seq<byte>): Hash {
    s.digest(LeafBytes(item))
  }

  function LeafHashes(s: Scheme, items: seq<seq<byte>>): seq<Hash> {
    seq(|items|, i requires 0 <= i < |items| => LeafHash(s, items[i]))
  }

  function NodeBytes(l: Hash, r: Hash): seq<byte> {
    [1] + l + r
  }

  /** What is hashed for the parent of `l` and `r`: the smaller first when hashes are sorted. */
  function ParentBytes(s: Scheme, l: Hash, r: Hash): seq<byte> {
    if s.sorted && !LexLe(l, r) then NodeBytes(r, l) else NodeBytes(l, r)
  }

  function Parent(s: Scheme, l: Hash, r: Hash): Hash {
    s.digest(ParentBytes(s, l, r))
  }

  /** `digest` maps no two strings of `strings` to the same hash. */
  ghost predicate NoCollision(s: Scheme, strings: set<seq<byte>>) {
    forall x, y :: x in strings && y in strings && s.digest(x) == s.digest(y) ==> x == y
  }

  /** Either that, or two different strings of the set collide. */
  lemma CollisionOrNot(s: Scheme, strings: set<seq<byte>>)
    ensures NoCollision(s, strings)
       <==> !exists x, y :: x in strings && y in strings && x != y && s.digest(x) == s.digest(y)
  {
  }

  lemma NodeBytesInjective(l: Hash, r: Hash, l': Hash, r': Hash)
    requires NodeBytes(l, r) == NodeBytes(l', r')
    ensures l == l' && r == r'
  {
    assert NodeBytes(l, r)[1..33] == l && NodeBytes(l', r')[1..33] == l';
    assert NodeBytes(l, r)[33..] == r && NodeBytes(l', r')[33..] == r';
  }

  /** A leaf and an intermediate node never hash the same string. */
  lemma PrefixesDiffer(s: Scheme, item: seq<byte>, l: Hash, r: Hash)
    ensures LeafBytes(item) != ParentBytes(s, l, r)
  {
    assert LeafBytes(item)[0] == 0;
    assert ParentBytes(s, l, r)[0] == 1;
  }

  /** Sorted hashing forgets the order of the two children and nothing else. */
  lemma ParentBytesBinding(s: Scheme, l: Hash, r: Hash, l': Hash, r': Hash)
    requires s.sorted
    ensures ParentBytes(s, l, r) == ParentBytes(s, l', r')
       <==> (l == l' && r == r') || (l == r' && r == l')
  {
    if ParentBytes(s, l, r) == ParentBytes(s, l', r') {
      var (a, b) := if LexLe(l, r) then (l, r) else (r, l);
      var (a', b') := if LexLe(l', r') then (l', r') else (r', l');
      NodeBytesInjective(a, b, a', b');
    }
    LexTotal(l, r);
    if LexLe(l, r) && LexLe(r, l) {
      LexAntisymmetric(l, r);
    }
  }

  // ------------------------------------------------------------------ shape

  /** `MerkleTree::next_level_len`. */
  function NextLevelLen(len: nat): (next: nat)
    ensures len > 0 ==> next < len
  {
    if len == 1 then 0 else (len + 1) / 2
  }

  /** Number of nodes on level `h` of a tree with `n` leaves; level 0 holds the leaves. */
  function Width(n: nat, h: nat): nat {
    if h == 0 then n else (Width(n, h - 1) + 1) / 2
  }

  function Height(n: nat): nat {
    if n <= 1 then 0 else 1 + Height((n + 1) / 2)
  }

  /** Index in the flat array of the first node of level `h`. */
  function Offset(n: nat, h: nat): nat {
    if h == 0 then 0 else Offset(n, h - 1) + Width(n, h - 1)
  }

  /** Sum of the level lengths, as `test_nodes_capacity_compute` counts them. */
  function TreeSize(n: nat): nat
    decreases n
  {
    if n == 0 then 0 else n + TreeSize(NextLevelLen(n))
  }

  function Ancestor(i: nat, h: nat): nat {
    if h == 0 then i else Ancestor(i, h - 1) / 2
  }

  lemma {:induction false} WidthShift(n: nat, h: nat)
    ensures Width(n, h + 1) == Width((n + 1) / 2, h)
  {
    if h > 0 {
      WidthShift(n, h - 1);
    }
  }

  /** Levels shrink down to the root at `Height(n)`, and only there is a level one node wide. */
  lemma {:induction false} WidthUpToHeight(n: nat, h: nat)
    requires 0 < n && h <= Height(n)
    ensures Width(n, h) == 1 <==> h == Height(n)
    ensures Width(n, h) >= 1
  {
    if h > 0 {
      WidthShift(n, h - 1);
      WidthUpToHeight((n + 1) / 2, h - 1);
    }
  }

  lemma {:induction false} OffsetShift(n: nat, h: nat)
    ensures Offset(n, h + 1) == n + Offset((n + 1) / 2, h)
  {
    if h > 0 {
      OffsetShift(n, h - 1);
      WidthShift(n, h - 1);
    }
  }

  lemma {:induction false} OffsetMonotone(n: nat, h: nat, g: nat)
    requires h < g
    ensures Offset(n, h) + Width(n, h) <= Offset(n, g)
  {
    if h + 1 < g {
      OffsetMonotone(n, h, g - 1);
    }
  }

  /** The flat array holds exactly the levels 0 to `Height(n)`. */
  lemma {:induction false} TreeSizeIsOffset(n: nat)
    requires 0 < n
    ensures TreeSize(n) == Offset(n, Height(n) + 1)
  {
    if n == 1 {
      assert TreeSize(0) == 0;
      assert Offset(1, 1) == Offset(1, 0) + Width(1, 0);
    } else {
      TreeSizeIsOffset((n + 1) / 2);
      OffsetShift(n, Height(n));
    }
  }

  lemma {:induction false} AncestorInLevel(n: nat, i: nat, h: nat)
    requires i < n
    ensures Ancestor(i, h) < Width(n, h)
  {
    if h > 0 {
      AncestorInLevel(n, i, h - 1);
    }
  }

  // --------------------------------------------------------------- capacity

  function FloorLog2(n: nat): nat
    requires 0 < n
  {
    if n == 1 then 0 else 1 + FloorLog2(n / 2)
  }

  /** `MerkleTree::calculate_vec_capacity`, with the exact logarithm. */
  function CalculateVecCapacity(leafCount: nat): nat {
    if leafCount > 0 then FloorLog2(leafCount) + 2 * leafCount + 1 else 0
  }

  lemma {:induction false} FloorLog2Monotone(m: nat, n: nat)
    requires 0 < m <= n
    ensures FloorLog2(m) <= FloorLog2(n)
  {
    if m > 1 {
      FloorLog2Monotone(m / 2, n / 2);
    }
  }

  /** Ceiling of the binary logarithm, the exact height of the tree. */
  lemma {:induction false} HeightIsCeilLog2(n: nat)
    requires 0 < n
    ensures Height(n) <= FloorLog2(n) + 1
  {
    if n > 1 {
      HeightOfPred(n);
    }
  }

  lemma {:induction false} HeightOfPred(n: nat)
    requires 2 <= n
    ensures Height(n) == FloorLog2(n - 1) + 1
    ensures FloorLog2(n - 1) <= FloorLog2(n)
  {
    FloorLog2Monotone(n - 1, n);
    if n > 2 {
      HeightOfPred((n + 1) / 2);
      assert (n + 1) / 2 - 1 == (n - 1) / 2;
    }
  }

  lemma {:induction false} TreeSizeByHeight(n: nat)
    requires 0 < n
    ensures TreeSize(n) <= 2 * n - 1 + Height(n)
  {
    if n == 1 {
      assert TreeSize(0) == 0;
    } else {
      TreeSizeByHeight((n + 1) / 2);
    }
  }

  /** The preallocated capacity suffices for every number of leaves. */
  lemma CapacitySuffices(n: nat)
    ensures TreeSize(n) <= CalculateVecCapacity(n)
  {
    if n > 0 {
      TreeSizeByHeight(n);
      HeightIsCeilLog2(n);
    }
  }

  function Pow2(k: nat): nat {
    if k == 0 then 1 else 2 * Pow2(k - 1)
  }

  /** What the capacity is: twice the leaves, one, and the exponent of the largest power of two within them. */
  lemma {:induction false} CapacityIs(n: nat, k: nat)
    requires Pow2(k) <= n < Pow2(k + 1)
    ensures CalculateVecCapacity(n) == 2 * n + k + 1
  {
    if k > 0 {
      CapacityIs(n / 2, k - 1);
    }
  }

  // ------------------------------------------------------- recursive meaning

  /** Reference definition: node `i` of level `h` over `leaves`. */
  function Subtree(s: Scheme, leaves: seq<Hash>, h: nat, i: nat): Hash
    requires i < Width(|leaves|, h)
    decreases h, 2
  {
    if h == 0 then leaves[i] else Parent(s, LeftChild(s, leaves, h, i), RightChild(s, leaves, h, i))
  }

  function LeftChild(s: Scheme, leaves: seq<Hash>, h: nat, i: nat): Hash
    requires 0 < h && i < Width(|leaves|, h)
    decreases h, 0
  {
    Subtree(s, leaves, h - 1, 2 * i)
  }

  function RightChild(s: Scheme, leaves: seq<Hash>, h: nat, i: nat): Hash
    requires 0 < h && i < Width(|leaves|, h)
    decreases h, 1
  {
    if 2 * i + 1 < Width(|leaves|, h - 1) then Subtree(s, leaves, h - 1, 2 * i + 1) else LeftChild(s, leaves, h, i)
  }

  function Root(s: Scheme, leaves: seq<Hash>): Hash
    requires leaves != []
  {
    WidthUpToHeight(|leaves|, Height(|leaves|));
    Subtree(s, leaves, Height(|leaves|), 0)
  }

  // ---------------------------------------------------- the same root, level by level

  /** The hash of a pair, byte for byte: a one, then both hashes, the smaller first when hashes are sorted. */
  function PairHash(digest: seq<byte> -> Hash, sorted: bool, l: Hash, r: Hash): Hash {
    if sorted && l != r && LexLe(r, l) then digest([1] + r + l) else digest([1] + l + r)
  }

  /** Pairing up the nodes of a level from the left, a last one without a neighbour with itself. */
  function PairUp(digest: seq<byte> -> Hash, sorted: bool, level: seq<Hash>): (above: seq<Hash>)
    ensures |above| == (|level| + 1) / 2
  {
    if level == [] then []
    else if |level| == 1 then [PairHash(digest, sorted, level[0], level[0])]
    else [PairHash(digest, sorted, level[0], level[1])] + PairUp(digest, sorted, level[2..])
  }

  /** Pairing up level after level until one node is left. */
  function FoldLevels(digest: seq<byte> -> Hash, sorted: bool, level: seq<Hash>): Hash
    requires level != []
    decreases |level|
  {
    if |level| == 1 then level[0] else FoldLevels(digest, sorted, PairUp(digest, sorted, level))
  }

  lemma PairHashIsParent(s: Scheme, l: Hash, r: Hash)
    ensures PairHash(s.digest, s.sorted, l, r) == Parent(s, l, r)
  {
    LexTotal(l, r);
    if LexLe(l, r) && LexLe(r, l) {
      LexAntisymmetric(l, r);
    }
  }

  lemma {:induction false} PairUpAt(digest: seq<byte> -> Hash, sorted: bool, level: seq<Hash>, i: nat)
    requires i < (|level| + 1) / 2
    ensures PairUp(digest, sorted, level)[i]
         == PairHash(digest, sorted, level[2 * i], if 2 * i + 1 < |level| then level[2 * i + 1] else level[2 * i])
  {
    if i > 0 {
      var rest := level[2..];
      PairUpAt(digest, sorted, rest, i - 1);
      assert rest[2 * (i - 1)] == level[2 * i];
      assert 2 * i + 1 < |level| ==> rest[2 * (i - 1) + 1] == level[2 * i + 1];
    }
  }

  lemma FirstLevelAbove(s: Scheme, leaves: seq<Hash>, i: nat)
    requires i < Width(|leaves|, 1)
    ensures i < (|leaves| + 1) / 2 && Subtree(s, leaves, 1, i) == PairUp(s.digest, s.sorted, leaves)[i]
  {
    assert Width(|leaves|, 0) == |leaves|;
    PairUpAt(s.digest, s.sorted, leaves, i);
    PairHashIsParent(s, leaves[2 * i], if 2 * i + 1 < |leaves| then leaves[2 * i + 1] else leaves[2 * i]);
  }

  /** Node `i` of level `h + 1` is node `i` of level `h` over the leaves paired up. */
  lemma {:induction false} SubtreeAbove(s: Scheme, leaves: seq<Hash>, above: seq<Hash>, h: nat, i: nat)
    requires above == PairUp(s.digest, s.sorted, leaves) && i < Width(|leaves|, h + 1)
    ensures i < Width(|above|, h) && Subtree(s, leaves, h + 1, i) == Subtree(s, above, h, i)
  {
    WidthShift(|leaves|, h);
    if h == 0 {
      FirstLevelAbove(s, leaves, i);
    } else {
      WidthShift(|leaves|, h - 1);
      SubtreeAbove(s, leaves, above, h - 1, 2 * i);
      if 2 * i + 1 < Width(|leaves|, h) {
        SubtreeAbove(s, leaves, above, h - 1, 2 * i + 1);
      }
    }
  }

  lemma {:induction false} RootIsFold(s: Scheme, leaves: seq<Hash>)
    requires leaves != []
    ensures Root(s, leaves) == FoldLevels(s.digest, s.sorted, leaves)
    decreases |leaves|
  {
    if |leaves| > 1 {
      var above := PairUp(s.digest, s.sorted, leaves);
      WidthUpToHeight(|leaves|, Height(|leaves|));
      SubtreeAbove(s, leaves, above, Height(|above|), 0);
      RootIsFold(s, above);
    }
  }

  /** The root over any items: hash each behind a zero byte, then pair up level after level. */
  lemma RootOfItems(s: Scheme, items: seq<seq<byte>>)
    requires items != []
    ensures Root(s, LeafHashes(s, items))
         == FoldLevels(s.digest, s.sorted, seq(|items|, i requires 0 <= i < |items| => s.digest([0] + items[i])))
  {
    RootIsFold(s, LeafHashes(s, items));
    assert LeafHashes(s, items) == seq(|items|, i requires 0 <= i < |items| => s.digest([0] + items[i]));
  }

  // ----------------------------------------------------------- the flat array

  datatype MerkleTree = MerkleTree(leafCount: nat, nodes: seq<Hash>) {

    predicate WellFormed() {
      |nodes| == TreeSize(leafCount)
    }

    /** Node `j` of level `h`. */
    function At(h: nat, j: nat): Hash
      requires WellFormed() && h <= Height(leafCount) && j < Width(leafCount, h)
    {
      LevelInBounds(leafCount, h);
      nodes[Offset(leafCount, h) + j]
    }

    /** `get_root`. */
    function GetRoot(): Option<Hash> {
      if nodes == [] then None else Some(nodes[|nodes| - 1])
    }
  }

  lemma OffsetWithin(n: nat, h: nat, g: nat, size: nat)
    requires h < g && Offset(n, g) == size
    ensures Offset(n, h) + Width(n, h) <= size
  {
    OffsetMonotone(n, h, g);
  }

  lemma LevelInBounds(n: nat, h: nat)
    requires h <= Height(n)
    ensures Offset(n, h) + Width(n, h) <= TreeSize(n)
  {
    if n > 0 {
      TreeSizeIsOffset(n);
      OffsetWithin(n, h, Height(n) + 1, TreeSize(n));
    }
  }

  /** The array `mt` is the tree over `leaves`: every slot holds the node the reference puts there. */
  ghost predicate Built(s: Scheme, leaves: seq<Hash>, mt: MerkleTree) {
    && mt.leafCount == |leaves|
    && mt.WellFormed()
    && forall h, j :: 0 <= h <= Height(|leaves|) && 0 <= j < Width(|leaves|, h) ==>
         mt.At(h, j) == Subtree(s, leaves, h, j)
  }

  /** Levels below `h` and the first `i` nodes of level `h` are in `nodes`, and nothing else. */
  ghost predicate Laid(s: Scheme, leaves: seq<Hash>, nodes: seq<Hash>, h: nat, i: nat) {
    && i <= Width(|leaves|, h)
    && |nodes| == Offset(|leaves|, h) + i
    && (forall g, j :: 0 <= g < h && 0 <= j < Width(|leaves|, g) ==> LaidAt(s, leaves, nodes, g, j))
    && (forall j :: 0 <= j < i ==> LaidAt(s, leaves, nodes, h, j))
  }

  ghost predicate LaidAt(s: Scheme, leaves: seq<Hash>, nodes: seq<Hash>, g: nat, j: nat)
    requires j < Width(|leaves|, g)
  {
    Offset(|leaves|, g) + j < |nodes| && nodes[Offset(|leaves|, g) + j] == Subtree(s, leaves, g, j)
  }

  lemma LaidComplete(s: Scheme, leaves: seq<Hash>, nodes: seq<Hash>)
    requires leaves != [] && Laid(s, leaves, nodes, Height(|leaves|) + 1, 0)
    ensures Built(s, leaves, MerkleTree(|leaves|, nodes))
  {
    TreeSizeIsOffset(|leaves|);
    var mt := MerkleTree(|leaves|, nodes);
    forall h, j | 0 <= h <= Height(|leaves|) && 0 <= j < Width(|leaves|, h)
      ensures mt.At(h, j) == Subtree(s, leaves, h, j)
    {
      assert LaidAt(s, leaves, nodes, h, j);
    }
  }

  lemma LookUp(s: Scheme, leaves: seq<Hash>, nodes: seq<Hash>, h: nat, i: nat, j: nat)
    requires Laid(s, leaves, nodes, h + 1, i) && j < Width(|leaves|, h)
    ensures Offset(|leaves|, h) + j < |nodes|
    ensures nodes[Offset(|leaves|, h) + j] == Subtree(s, leaves, h, j)
  {
    assert LaidAt(s, leaves, nodes, h, j);
  }

  /** Pushes level `h + 1`, of `levelLen` nodes, behind a complete level `h`. */
  method PushLevel(s: Scheme, ghost leaves: seq<Hash>, ghost h: nat, levelLen: nat,
                   prevLevelStart: nat, prevLevelLen: nat, nodes: seq<Hash>)
    returns (extended: seq<Hash>)
    requires Laid(s, leaves, nodes, h + 1, 0)
    requires prevLevelStart == Offset(|leaves|, h) && prevLevelLen == Width(|leaves|, h)
    requires levelLen == Width(|leaves|, h + 1)
    ensures Laid(s, leaves, extended, h + 2, 0)
    ensures |extended| == |nodes| + levelLen
  {
    extended := nodes;
    for i := 0 to levelLen
      invariant Laid(s, leaves, extended, h + 1, i)
    {
      var prevLevelIdx := 2 * i;
      ChildrenLaid(s, leaves, extended, h, i);
      var lsib := extended[prevLevelStart + prevLevelIdx];
      var rsib := if prevLevelIdx + 1 < prevLevelLen then extended[prevLevelStart + prevLevelIdx + 1] else lsib;
      var hash := Parent(s, lsib, rsib);
      LaidPush(s, leaves, extended, h + 1, i, hash);
      extended := extended + [hash];
    }
    LaidNextLevel(s, leaves, extended, h + 1);
  }

  /** The children of the next node of level `h + 1` stand in level `h`. */
  lemma ChildrenLaid(s: Scheme, leaves: seq<Hash>, nodes: seq<Hash>, h: nat, i: nat)
    requires Laid(s, leaves, nodes, h + 1, i) && i < Width(|leaves|, h + 1)
    ensures var start, len := Offset(|leaves|, h), Width(|leaves|, h);
            && 2 * i < len && start + len <= |nodes|
            && Subtree(s, leaves, h + 1, i)
               == Parent(s, nodes[start + 2 * i],
                         if 2 * i + 1 < len then nodes[start + 2 * i + 1] else nodes[start + 2 * i])
  {
    LookUp(s, leaves, nodes, h, i, 2 * i);
    if 2 * i + 1 < Width(|leaves|, h) {
      LookUp(s, leaves, nodes, h, i, 2 * i + 1);
    }
  }

  /** `MerkleTree::new`. */
  method New(s: Scheme, items: seq<seq<byte>>) returns (mt: MerkleTree)
    ensures Built(s, LeafHashes(s, items), mt)
    ensures |mt.nodes| <= CalculateVecCapacity(|items|)
  {
    ghost var leaves := LeafHashes(s, items);
    var n := |items|;
    var nodes: seq<Hash> := [];
    for i := 0 to n
      invariant Laid(s, leaves, nodes, 0, i)
    {
      LaidPush(s, leaves, nodes, 0, i, LeafHash(s, items[i]));
      nodes := nodes + [LeafHash(s, items[i])];
    }
    LaidNextLevel(s, leaves, nodes, 0);

    var levelLen := NextLevelLen(n);
    var levelStart := n;
    var prevLevelLen := n;
    var prevLevelStart := 0;
    ghost var h := 0;
    while levelLen > 0
      invariant prevLevelLen == Width(n, h) && prevLevelStart == Offset(n, h)
      invariant levelLen == NextLevelLen(prevLevelLen) && levelStart == Offset(n, h + 1)
      invariant n > 0 ==> h <= Height(n)
      invariant n == 0 ==> h == 0
      invariant Laid(s, leaves, nodes, h + 1, 0)
      decreases levelLen
    {
      WidthUpToHeight(n, h);
      nodes := PushLevel(s, leaves, h, levelLen, prevLevelStart, prevLevelLen, nodes);
      prevLevelStart := levelStart;
      prevLevelLen := levelLen;
      levelStart := levelStart + levelLen;
      levelLen := NextLevelLen(levelLen);
      h := h + 1;
    }
    mt := MerkleTree(n, nodes);
    CapacitySuffices(n);
    if n > 0 {
      WidthUpToHeight(n, h);
      LaidComplete(s, leaves, nodes);
    }
  }

  lemma LaidPush(s: Scheme, leaves: seq<Hash>, nodes: seq<Hash>, h: nat, i: nat, hash: Hash)
    requires Laid(s, leaves, nodes, h, i) && i < Width(|leaves|, h) && hash == Subtree(s, leaves, h, i)
    ensures Laid(s, leaves, nodes + [hash], h, i + 1)
  {
    forall g, j | 0 <= g < h && 0 <= j < Width(|leaves|, g)
      ensures LaidAt(s, leaves, nodes + [hash], g, j)
    {
      assert LaidAt(s, leaves, nodes, g, j);
    }
    forall j | 0 <= j < i
      ensures LaidAt(s, leaves, nodes + [hash], h, j)
    {
      assert LaidAt(s, leaves, nodes, h, j);
    }
  }

  lemma LaidNextLevel(s: Scheme, leaves: seq<Hash>, nodes: seq<Hash>, h: nat)
    requires Laid(s, leaves, nodes, h, Width(|leaves|, h))
    ensures Laid(s, leaves, nodes, h + 1, 0)
  {
    forall g, j | 0 <= g < h + 1 && 0 <= j < Width(|leaves|, g)
      ensures LaidAt(s, leaves, nodes, g, j)
    {
      if g == h {
        assert LaidAt(s, leaves, nodes, h, j);
      }
    }
  }

  /** `get_root` is the root of the recursive definition, and an empty tree has none. */
  lemma GetRootIsRoot(s: Scheme, leaves: seq<Hash>, mt: MerkleTree)
    requires Built(s, leaves, mt)
    ensures mt.GetRoot() == if leaves == [] then None else Some(Root(s, leaves))
  {
    if leaves != [] {
      var n := |leaves|;
      WidthUpToHeight(n, Height(n));
      TreeSizeIsOffset(n);
      assert mt.At(Height(n), 0) == Root(s, leaves);
    }
  }

  // ------------------------------------------------------------------ paths

  datatype ProofEntry = ProofEntry(target: Hash, leftSibling: Option<Hash>, rightSibling: Option<Hash>)

  /** `ProofEntry::new`; its assertion is the precondition. */
  function NewProofEntry(target: Hash, leftSibling: Option<Hash>, rightSibling: Option<Hash>): ProofEntry
    requires leftSibling.None? != rightSibling.None?
  {
    ProofEntry(target, leftSibling, rightSibling)
  }

  /** Sibling of node `j` of level `h`: its neighbour in the pair, or itself at an odd end. */
  function SiblingIndex(n: nat, h: nat, j: nat): (k: nat)
    requires j < Width(n, h)
    ensures k < Width(n, h)
  {
    if j % 2 == 1 then j - 1 else if j + 1 < Width(n, h) then j + 1 else j
  }

  /** The path entry that leads from node `j` of level `h` to its parent. */
  function EntryFrom(mt: MerkleTree, h: nat, j: nat): ProofEntry
    requires mt.WellFormed() && h < Height(mt.leafCount) && j < Width(mt.leafCount, h)
  {
    var sibling := mt.At(h, SiblingIndex(mt.leafCount, h, j));
    var parent := mt.At(h + 1, j / 2);
    if j % 2 == 0 then NewProofEntry(parent, None, Some(sibling)) else NewProofEntry(parent, Some(sibling), None)
  }

  /** Entry `h` of the path of leaf `i`. */
  function PathEntry(mt: MerkleTree, i: nat, h: nat): ProofEntry
    requires mt.WellFormed() && i < mt.leafCount && h < Height(mt.leafCount)
  {
    AncestorInLevel(mt.leafCount, i, h);
    EntryFrom(mt, h, Ancestor(i, h))
  }

  /** The slice of level `h` holds its nodes. */
  lemma LevelSlice(mt: MerkleTree, h: nat, start: nat, len: nat)
    requires mt.WellFormed() && h <= Height(mt.leafCount)
    requires start == Offset(mt.leafCount, h) && len == Width(mt.leafCount, h) && start + len <= |mt.nodes|
    ensures forall j :: 0 <= j < len ==> mt.nodes[start..start + len][j] == mt.At(h, j)
  {
    forall j | 0 <= j < len
      ensures mt.nodes[start..start + len][j] == mt.At(h, j)
    {
    }
  }

  /** One step of `find_path`: the left and right sibling of node `j`, of which exactly one is set. */
  function Siblings(level: seq<Hash>, j: nat): (r: (Option<Hash>, Option<Hash>))
    requires j < |level|
    ensures r.0.None? != r.1.None?
  {
    if j % 2 == 0
    then (None, if j + 1 < |level| then Some(level[j + 1]) else Some(level[j]))
    else (Some(level[j - 1]), None)
  }

  lemma SiblingsMakeEntry(mt: MerkleTree, h: nat, j: nat, level: seq<Hash>)
    requires mt.WellFormed() && h < Height(mt.leafCount) && j < Width(mt.leafCount, h) == |level|
    requires forall k :: 0 <= k < |level| ==> level[k] == mt.At(h, k)
    ensures var (lsib, rsib) := Siblings(level, j);
            NewProofEntry(mt.At(h + 1, j / 2), lsib, rsib) == EntryFrom(mt, h, j)
  {
    assert level[SiblingIndex(mt.leafCount, h, j)] == mt.At(h, SiblingIndex(mt.leafCount, h, j));
  }

  /** The state of `find_path` on reaching level `h`. */
  ghost predicate Reached(mt: MerkleTree, index: nat, h: nat, nodeIndex: nat, entries: seq<ProofEntry>,
                          lsib: Option<Hash>, rsib: Option<Hash>)
    requires mt.WellFormed() && index < mt.leafCount && h <= Height(mt.leafCount) + 1
  {
    && nodeIndex == Ancestor(index, h)
    && |entries| == Max(h - 1, 0)
    && (forall g :: 0 <= g < |entries| ==> entries[g] == PathEntry(mt, index, g))
    && (h == 0 ==> lsib.None? && rsib.None?)
    && (h > 0 ==> lsib.None? != rsib.None?)
    && (0 < h <= Height(mt.leafCount) ==>
          nodeIndex < Width(mt.leafCount, h)
          && NewProofEntry(mt.At(h, nodeIndex), lsib, rsib) == PathEntry(mt, index, h - 1))
  }

  lemma PathExtends(mt: MerkleTree, index: nat, entries: seq<ProofEntry>, entry: ProofEntry)
    requires mt.WellFormed() && index < mt.leafCount && |entries| < Height(mt.leafCount)
    requires forall g :: 0 <= g < |entries| ==> entries[g] == PathEntry(mt, index, g)
    requires entry == PathEntry(mt, index, |entries|)
    ensures forall g :: 0 <= g < |entries + [entry]| ==> (entries + [entry])[g] == PathEntry(mt, index, g)
  {
  }

  lemma ReachNext(mt: MerkleTree, index: nat, h: nat, nodeIndex: nat, entries: seq<ProofEntry>,
                  lsib: Option<Hash>, rsib: Option<Hash>, level: seq<Hash>, entries': seq<ProofEntry>)
    requires mt.WellFormed() && index < mt.leafCount && h <= Height(mt.leafCount)
    requires Reached(mt, index, h, nodeIndex, entries, lsib, rsib)
    requires nodeIndex < Width(mt.leafCount, h) == |level|
    requires forall k :: 0 <= k < |level| ==> level[k] == mt.At(h, k)
    requires entries' == if h == 0 then entries else entries + [NewProofEntry(level[nodeIndex], lsib, rsib)]
    ensures var (lsib', rsib') := Siblings(level, nodeIndex);
            Reached(mt, index, h + 1, nodeIndex / 2, entries', lsib', rsib')
  {
    if h > 0 {
      PathExtends(mt, index, entries, NewProofEntry(level[nodeIndex], lsib, rsib));
    }
    if h < Height(mt.leafCount) {
      AncestorInLevel(mt.leafCount, index, h + 1);
      SiblingsMakeEntry(mt, h, nodeIndex, level);
    }
  }

  /** One level of `find_path`: the node reached there completes an entry, and its siblings are for the next one. */
  method Step(mt: MerkleTree, ghost index: nat, ghost h: nat, levelStart: nat, levelLen: nat, nodeIndex: nat,
              before: seq<ProofEntry>, lsib: Option<Hash>, rsib: Option<Hash>)
    returns (entries: seq<ProofEntry>, lsib': Option<Hash>, rsib': Option<Hash>)
    requires mt.WellFormed() && index < mt.leafCount && h <= Height(mt.leafCount)
    requires levelStart == Offset(mt.leafCount, h) && levelLen == Width(mt.leafCount, h)
    requires Reached(mt, index, h, nodeIndex, before, lsib, rsib)
    ensures Reached(mt, index, h + 1, nodeIndex / 2, entries, lsib', rsib')
  {
    AncestorInLevel(mt.leafCount, index, h);
    LevelInBounds(mt.leafCount, h);
    LevelSlice(mt, h, levelStart, levelLen);
    var level := mt.nodes[levelStart..levelStart + levelLen];
    var target := level[nodeIndex];
    entries := before;
    if lsib.Some? || rsib.Some? {
      entries := entries + [NewProofEntry(target, lsib, rsib)];
    }
    ReachNext(mt, index, h, nodeIndex, before, lsib, rsib, level, entries);
    var siblings := Siblings(level, nodeIndex);
    lsib', rsib' := siblings.0, siblings.1;
  }

  /** `find_path`. */
  method FindPath(mt: MerkleTree, index: nat) returns (path: Option<seq<ProofEntry>>)
    requires mt.WellFormed()
    ensures path.None? <==> index >= mt.leafCount
    ensures path.Some? ==> |path.value| == Height(mt.leafCount)
    ensures path.Some? ==> forall h :: 0 <= h < |path.value| ==> path.value[h] == PathEntry(mt, index, h)
  {
    if index >= mt.leafCount {
      return None;
    }
    ghost var n := mt.leafCount;
    var levelLen := mt.leafCount;
    var levelStart := 0;
    var entries: seq<ProofEntry> := [];
    var nodeIndex: nat := index;
    var lsib: Option<Hash> := None;
    var rsib: Option<Hash> := None;
    ghost var h := 0;
    while levelLen > 0
      invariant h <= Height(n) + 1
      invariant levelLen == if h <= Height(n) then Width(n, h) else 0
      invariant levelLen == 0 ==> h == Height(n) + 1
      invariant levelStart == Offset(n, h)
      invariant Reached(mt, index, h, nodeIndex, entries, lsib, rsib)
      decreases levelLen
    {
      WidthUpToHeight(n, h);
      entries, lsib, rsib := Step(mt, index, h, levelStart, levelLen, nodeIndex, entries, lsib, rsib);
      nodeIndex := nodeIndex / 2;
      levelStart := levelStart + levelLen;
      levelLen := NextLevelLen(levelLen);
      h := h + 1;
    }
    path := Some(entries);
  }
}
