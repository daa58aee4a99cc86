/** The leaves of a settlement's Merkle tree, merkle-tree/src/psr_claim.rs, and what hashing them binds. */
module TreeNodes {
  import opened Wrappers
  import opened Bytes
  import opened MerkleTrees

  datatype TreeNode = TreeNode(
    stakeAuthority: Pubkey,
    withdrawAuthority: Pubkey,
    claim: u64,
    index: u64,
    proof: Option<seq<Hash>>)

  /** `to_le_bytes` of an integer of `width` bytes. */
  function LeBytes(v: nat, width: nat): (r: seq<byte>)
    ensures |r| == width
  {
    if width == 0 then [] else [v % 256] + LeBytes(v / 256, width - 1)
  }

  function Pow256(width: nat): nat {
    if width == 0 then 1 else 256 * Pow256(width - 1)
  }

  /** The number that little-endian bytes stand for: byte `i` counts `256^i`. */
  function LittleEndian(bytes: seq<byte>): nat {
    if bytes == [] then 0
    else LittleEndian(bytes[..|bytes| - 1]) + bytes[|bytes| - 1] * Pow256(|bytes| - 1)
  }

  lemma {:induction false} LittleEndianCons(b: byte, rest: seq<byte>)
    ensures LittleEndian([b] + rest) == b + 256 * LittleEndian(rest)
  {
    if rest == [] {
      assert [b] + rest == [b] && [b][..0] == [];
    } else {
      var front, last := rest[..|rest| - 1], rest[|rest| - 1];
      assert ([b] + rest)[..|rest|] == [b] + front;
      LittleEndianCons(b, front);
      assert last * (256 * Pow256(|front|)) == 256 * (last * Pow256(|front|));
    }
  }

  lemma {:induction false} LeBytesRead(v: nat, width: nat)
    requires v < Pow256(width)
    ensures LittleEndian(LeBytes(v, width)) == v
  {
    if width > 0 {
      LeBytesRead(v / 256, width - 1);
      LittleEndianCons(v % 256, LeBytes(v / 256, width - 1));
    }
  }

  /** Bytes of one length that stand for one number are the same. */
  lemma {:induction false} LittleEndianInjective(a: seq<byte>, b: seq<byte>)
    requires |a| == |b| && LittleEndian(a) == LittleEndian(b)
    ensures a == b
  {
    if a != [] {
      assert a == [a[0]] + a[1..] && b == [b[0]] + b[1..];
      LittleEndianCons(a[0], a[1..]);
      LittleEndianCons(b[0], b[1..]);
      LittleEndianInjective(a[1..], b[1..]);
    }
  }

  lemma U64Fits(v: u64)
    ensures v < Pow256(8)
  {
    assert Pow256(4) == 256 * (256 * (256 * (256 * 1)));
    assert Pow256(8) == 256 * (256 * (256 * (256 * Pow256(4))));
  }

  /** SHA-256 fed piece by piece. */
  class Hasher {
    const digest: seq<byte> -> Hash
    var fed: seq<byte>

    constructor (digest: seq<byte> -> Hash)
      ensures this.digest == digest && fed == []
    {
      this.digest := digest;
      fed := [];
    }

    method Hash(bytes: seq<byte>)
      modifies this`fed
      ensures fed == old(fed) + bytes
    {
      fed := fed + bytes;
    }

    method Result() returns (h: Hash)
      ensures h == digest(fed)
    {
      h := digest(fed);
    }
  }

  /** The string a node's hash is taken of: 32 + 32 + 8 + 8 bytes. */
  function Encode(node: TreeNode): seq<byte> {
    node.stakeAuthority + node.withdrawAuthority + LeBytes(node.claim, 8) + LeBytes(node.index, 8)
  }

  /** `bytes` is the string of a leaf as the on-chain program lays it out: the stake authority, the withdraw authority,
      then the claim and the index as little-endian numbers of eight bytes. */
  ghost predicate IsLayout(bytes: seq<byte>, node: TreeNode) {
    && |bytes| == 80
    && bytes[..32] == node.stakeAuthority
    && bytes[32..64] == node.withdrawAuthority
    && LittleEndian(bytes[64..72]) == node.claim
    && LittleEndian(bytes[72..80]) == node.index
  }

  lemma EncodeSlices(node: TreeNode)
    ensures var code := Encode(node);
            && |code| == 80 && code[..32] == node.stakeAuthority && code[32..64] == node.withdrawAuthority
            && code[64..72] == LeBytes(node.claim, 8) && code[72..80] == LeBytes(node.index, 8)
  {
  }

  lemma LayoutUnique(a: seq<byte>, b: seq<byte>, node: TreeNode)
    requires IsLayout(a, node) && IsLayout(b, node)
    ensures a == b
  {
    LittleEndianInjective(a[64..72], b[64..72]);
    LittleEndianInjective(a[72..80], b[72..80]);
    assert a == a[..32] + a[32..64] + a[64..72] + a[72..80];
    assert b == b[..32] + b[32..64] + b[64..72] + b[72..80];
  }

  /** The encoding is that string, and no other string is. */
  lemma EncodeIsLayout(node: TreeNode, bytes: seq<byte>)
    ensures IsLayout(bytes, node) <==> bytes == Encode(node)
  {
    EncodeSlices(node);
    U64Fits(node.claim);
    U64Fits(node.index);
    LeBytesRead(node.claim, 8);
    LeBytesRead(node.index, 8);
    if IsLayout(bytes, node) {
      LayoutUnique(bytes, Encode(node), node);
    }
  }

  function NodeHash(digest: seq<byte> -> Hash, node: TreeNode): Hash {
    digest(Encode(node))
  }

  /** `TreeNode::hash`. */
  method HashNode(digest: seq<byte> -> Hash, node: TreeNode) returns (h: Hash)
    ensures h == NodeHash(digest, node)
    ensures exists bytes :: IsLayout(bytes, node) && h == digest(bytes)
    ensures forall bytes :: IsLayout(bytes, node) ==> h == digest(bytes)
  {
    var hasher := new Hasher(digest);
    hasher.Hash(node.stakeAuthority);
    hasher.Hash(node.withdrawAuthority);
    hasher.Hash(LeBytes(node.claim, 8));
    hasher.Hash(LeBytes(node.index, 8));
    assert hasher.fed == Encode(node);
    h := hasher.Result();
    EncodeIsLayout(node, Encode(node));
    forall bytes | IsLayout(bytes, node)
      ensures h == digest(bytes)
    {
      EncodeIsLayout(node, bytes);
    }
  }

  /** Two nodes agree on everything their hash covers. */
  predicate SameLeaf(a: TreeNode, b: TreeNode) {
    a.(proof := None) == b.(proof := None)
  }

  /** The encoding is injective: no two leaves that differ in a field share a string. */
  lemma EncodeInjective(a: TreeNode, b: TreeNode)
    ensures Encode(a) == Encode(b) <==> SameLeaf(a, b)
  {
    if Encode(a) == Encode(b) {
      EncodeIsLayout(a, Encode(a));
      EncodeIsLayout(b, Encode(b));
    }
  }
}
