/** The Merkle commitment to a library of port atoms and its membership proofs. */
module LibraryMerkle {
  import opened Text
  import opened Digests
  import opened MerkleTree

  datatype Commitment = Commitment(root: string, leaves: seq<string>)

  datatype Proof = Proof(leaf: string, root: string, path: seq<Step<string>>)

  const LEAF_DOMAIN := "khora.obp.algebra.merkle-leaf.v1"
  const NODE_DOMAIN := "khora.obp.algebra.merkle-node.v1"
  const EMPTY_DOMAIN := "khora.obp.algebra.merkle-empty.v1"

  function LeafText(atom: string): string { LEAF_DOMAIN + "\0" + atom }

  function NodeText(left: string, right: string): string { NODE_DOMAIN + "\0" + left + "\0" + right }

  function NodeHash(sha: Sha): Node<string>
    requires Sha256Like(sha)
  {
    (left, right) => ShaHex(sha, NodeText(left, right))
  }

  function LeafHash(sha: Sha, atom: string): (h: string)
    requires Sha256Like(sha)
    ensures |h| == 64
  {
    ShaHex(sha, LeafText(atom))
  }

  function LeafHashes(sha: Sha, leaves: seq<string>): (hs: seq<string>)
    requires Sha256Like(sha)
    ensures |hs| == |leaves| && forall i :: 0 <= i < |hs| ==> hs[i] == LeafHash(sha, leaves[i])
  {
    seq(|leaves|, i requires 0 <= i < |leaves| => LeafHash(sha, leaves[i]))
  }

  function RootOf(sha: Sha, leaves: seq<string>): string
    requires Sha256Like(sha)
  {
    if |leaves| == 0 then ShaHex(sha, EMPTY_DOMAIN) else Root(NodeHash(sha), LeafHashes(sha, leaves))
  }

  /** The commitment to the library with the given atoms. */
  ghost function Commit(sha: Sha, atoms: set<string>): Commitment
    requires Sha256Like(sha)
  {
    Commitment(RootOf(sha, SortedKeys(atoms)), SortedKeys(atoms))
  }

  function ProofAt(sha: Sha, commitment: Commitment, index: nat): Proof
    requires Sha256Like(sha) && index < |commitment.leaves|
  {
    var layers := Layers(NodeHash(sha), LeafHashes(sha, commitment.leaves));
    Proof(commitment.leaves[index], commitment.root, PathFrom(layers, index))
  }

  predicate Verifies(sha: Sha, proof: Proof, commitment: Commitment)
    requires Sha256Like(sha)
  {
    proof.root == commitment.root && Climb(NodeHash(sha), LeafHash(sha, proof.leaf), proof.path) == proof.root
  }

  /** The root of one atom is its leaf hash, and that of two hashes their leaf hashes in order. */
  lemma SmallRoots(sha: Sha, a: string, b: string)
    requires Sha256Like(sha)
    ensures RootOf(sha, [a]) == ShaHex(sha, LEAF_DOMAIN + "\0" + a)
    ensures RootOf(sha, [a, b])
         == ShaHex(sha, NODE_DOMAIN + "\0" + ShaHex(sha, LEAF_DOMAIN + "\0" + a)
                        + "\0" + ShaHex(sha, LEAF_DOMAIN + "\0" + b))
  {
    assert LeafHashes(sha, [a]) == [LeafHash(sha, a)];
    assert LeafHashes(sha, [a, b]) == [LeafHash(sha, a), LeafHash(sha, b)];
    RootOfTwo(NodeHash(sha), LeafHash(sha, a), LeafHash(sha, b));
  }

  // ----- The algorithms

  method BuildMerkleLayers(sha: Sha, leafHashes: seq<string>) returns (layers: seq<seq<string>>)
    requires Sha256Like(sha)
    ensures layers == if |leafHashes| == 0 then [[ShaHex(sha, EMPTY_DOMAIN)]] else Layers(NodeHash(sha), leafHashes)
  {
    if |leafHashes| == 0 { return [[ShaHex(sha, EMPTY_DOMAIN)]]; }
    layers := BuildLayers(NodeHash(sha), leafHashes);
  }

  /** `[...new Set(atoms)].sort()`. */
  method SortedUnique(atoms: seq<string>) returns (leaves: seq<string>)
    ensures leaves == SortedKeys(set a | a in atoms)
  {
    var unique: seq<string> := [];
    for i := 0 to |atoms|
      invariant forall a :: a in unique <==> a in atoms[..i]
      invariant forall p, q :: 0 <= p < q < |unique| ==> unique[p] != unique[q]
    {
      assert atoms[..i + 1] == atoms[..i] + [atoms[i]];
      if atoms[i] !in unique { unique := unique + [atoms[i]]; }
    }
    assert atoms[..|atoms|] == atoms;
    leaves := SortStrings(unique);
    assert (set a | a in unique) == (set a | a in atoms);
  }

  method CommitLibrary(sha: Sha, atoms: seq<string>) returns (c: Commitment)
    requires Sha256Like(sha)
    ensures c == Commit(sha, set a | a in atoms)
  {
    var leaves := SortedUnique(atoms);
    if |leaves| == 0 { return Commitment(ShaHex(sha, EMPTY_DOMAIN), leaves); }
    var layers := BuildMerkleLayers(sha, LeafHashes(sha, leaves));
    RootIsTop(NodeHash(sha), LeafHashes(sha, leaves));
    c := Commitment(layers[|layers| - 1][0], leaves);
  }

  /** Nothing for an atom that is not a leaf, else the siblings found by halving its index. */
  method ProveMembership(sha: Sha, atom: string, commitment: Commitment) returns (r: Option<Proof>)
    requires Sha256Like(sha)
    ensures r.Some? <==> atom in commitment.leaves
    ensures r.Some? ==> exists index: nat ::
      && index < |commitment.leaves| && commitment.leaves[index] == atom
      && r.value == ProofAt(sha, commitment, index)
  {
    var leaves := commitment.leaves;
    var leafIndex := 0;
    while leafIndex < |leaves| && leaves[leafIndex] != atom
      invariant 0 <= leafIndex <= |leaves|
      invariant forall j :: 0 <= j < leafIndex ==> leaves[j] != atom
    {
      leafIndex := leafIndex + 1;
    }
    if leafIndex == |leaves| { return None; }
    var layers := BuildMerkleLayers(sha, LeafHashes(sha, leaves));
    var path := SiblingPath(layers, leafIndex);
    r := Some(Proof(atom, commitment.root, path));
    assert r.value == ProofAt(sha, commitment, leafIndex);
  }

  lemma PathFromStep(layers: seq<seq<string>>, level: nat, index: nat)
    requires Tapering(layers) && level + 1 < |layers| && index < |layers[level]|
    ensures Tapering(layers[level..]) && Tapering(layers[level + 1..]) && index / 2 < |layers[level + 1]|
    ensures PathFrom(layers[level..], index)
         == [SiblingStep(layers[level], index)] + PathFrom(layers[level + 1..], index / 2)
  {
    assert layers[level..][1..] == layers[level + 1..];
    TaperingFrom(layers, level);
    TaperingFrom(layers, level + 1);
  }

  lemma PathEnds(layers: seq<seq<string>>, index: nat)
    requires Tapering(layers) && |layers| == 1 && index < |layers[0]|
    ensures PathFrom(layers, index) == []
  {
  }

  lemma TaperingFrom(layers: seq<seq<string>>, level: nat)
    requires Tapering(layers) && level < |layers|
    ensures Tapering(layers[level..])
  {
    var above := layers[level..];
    forall l | 1 <= l < |above| ensures |above[l]| == (|above[l - 1]| + 1) / 2 {
      assert |layers[level + l]| == (|layers[level + l - 1]| + 1) / 2;
    }
  }

  method SiblingPath(layers: seq<seq<string>>, leafIndex: nat) returns (path: seq<Step<string>>)
    requires Tapering(layers) && leafIndex < |layers[0]|
    ensures path == PathFrom(layers, leafIndex)
  {
    hide PathFrom;
    path := [];
    var index := leafIndex;
    assert layers[0..] == layers;
    for level := 0 to |layers| - 1
      invariant level < |layers| && 0 <= index < |layers[level]| && Tapering(layers[level..])
      invariant path + PathFrom(layers[level..], index) == PathFrom(layers, leafIndex)
    {
      var layer := layers[level];
      var isRight := index % 2 == 1;
      var siblingIndex := if isRight then index - 1 else index + 1;
      var sibling := if siblingIndex < |layer| then layer[siblingIndex] else layer[index];
      PathFromStep(layers, level, index);
      assert SiblingStep(layer, index) == Step(sibling, if isRight then Left else Right);
      path := path + [Step(sibling, if isRight then Left else Right)];
      index := index / 2;
    }
    PathEnds(layers[|layers| - 1..], index);
  }

  method HashUp(sha: Sha, leafHash: string, path: seq<Step<string>>) returns (current: string)
    requires Sha256Like(sha)
    ensures current == Climb(NodeHash(sha), leafHash, path)
  {
    var node := NodeHash(sha);
    current := leafHash;
    for i := 0 to |path|
      invariant current == Climb(node, leafHash, path[..i])
    {
      var step := path[i];
      assert path[..i + 1][..i] == path[..i];
      current := if step.side == Left then node(step.sibling, current) else node(current, step.sibling);
    }
    assert path[..|path|] == path;
  }

  method VerifyMembershipInCommitment(sha: Sha, proof: Proof, commitment: Commitment) returns (ok: bool)
    requires Sha256Like(sha)
    ensures ok == Verifies(sha, proof, commitment)
  {
    if proof.root != commitment.root { return false; }
    var computed := HashUp(sha, LeafHash(sha, proof.leaf), proof.path);
    ok := computed == proof.root;
  }

  // ----- Completeness

  /** The proof made for any member of a library verifies against the library's commitment. */
  lemma MembershipComplete(sha: Sha, atoms: set<string>, index: nat)
    requires Sha256Like(sha) && index < |SortedKeys(atoms)|
    ensures Verifies(sha, ProofAt(sha, Commit(sha, atoms), index), Commit(sha, atoms))
  {
    PathReachesRoot(NodeHash(sha), LeafHashes(sha, SortedKeys(atoms)), index);
  }

  // ----- Soundness

  ghost function NodeTexts(pairs: set<(string, string)>): set<string> {
    set p | p in pairs :: NodeText(p.0, p.1)
  }

  ghost function CommitPairs(sha: Sha, atoms: set<string>): set<(string, string)>
    requires Sha256Like(sha)
  {
    var leaves := SortedKeys(atoms);
    if |leaves| == 0 then {} else TreePairs(Layers(NodeHash(sha), LeafHashes(sha, leaves)))
  }

  /** Every text hashed to commit to a library. */
  ghost function CommitTexts(sha: Sha, atoms: set<string>): set<string>
    requires Sha256Like(sha)
  {
    {EMPTY_DOMAIN} + (set a | a in atoms :: LeafText(a)) + NodeTexts(CommitPairs(sha, atoms))
  }

  ghost function ProofPairs(sha: Sha, proof: Proof): set<(string, string)>
    requires Sha256Like(sha)
  {
    ClimbPairs(NodeHash(sha), LeafHash(sha, proof.leaf), proof.path)
  }

  /** Every text hashed to check a proof. */
  ghost function ProofTexts(sha: Sha, proof: Proof): set<string>
    requires Sha256Like(sha)
  {
    {LeafText(proof.leaf)} + NodeTexts(ProofPairs(sha, proof))
  }

  /** The three kinds of hashed text start differently. */
  lemma DomainsApart(atom: string, l: string, r: string)
    ensures LeafText(atom) != NodeText(l, r)
    ensures LeafText(atom) != EMPTY_DOMAIN && NodeText(l, r) != EMPTY_DOMAIN
  {
    var k := 25;
    assert LeafText(atom)[k] == LEAF_DOMAIN[k] == 'l';
    assert NodeText(l, r)[k] == NODE_DOMAIN[k] == 'n';
    assert EMPTY_DOMAIN[k] == 'e';
  }

  /** A pair is readable from its text once one side is known to have the width of a digest. */
  lemma NodeTextInjective(p: (string, string), q: (string, string))
    requires NodeText(p.0, p.1) == NodeText(q.0, q.1)
    requires |p.0| == |q.0| || |p.1| == |q.1|
    ensures p == q
  {
    var d := |NODE_DOMAIN| + 1;
    var x, y := NodeText(p.0, p.1), NodeText(q.0, q.1);
    assert |x| == d + |p.0| + 1 + |p.1| && |y| == d + |q.0| + 1 + |q.1|;
    assert x[d..d + |p.0|] == p.0 && y[d..d + |q.0|] == q.0;
    assert x[d + |p.0| + 1..] == p.1 && y[d + |q.0| + 1..] == q.1;
  }

  /** Collision freedom of the hashed texts, read as a property of the hashed pairs. */
  lemma NodesApart(sha: Sha, texts: set<string>, tree: set<(string, string)>, climb: set<(string, string)>)
    requires Sha256Like(sha) && CollisionFree(sha, texts)
    requires NodeTexts(tree) <= texts && NodeTexts(climb) <= texts
    requires forall p :: p in tree ==> |p.0| == |p.1| == 64
    requires forall q :: q in climb ==> |q.0| == 64 || |q.1| == 64
    ensures NoMixups(NodeHash(sha), tree, climb)
  {
    forall p, q | p in tree && q in climb && NodeHash(sha)(p.0, p.1) == NodeHash(sha)(q.0, q.1)
      ensures p == q
    {
      var x, y := NodeText(p.0, p.1), NodeText(q.0, q.1);
      assert x in NodeTexts(tree) && y in NodeTexts(climb);
      ShaHexInjective(sha, texts, x, y);
      NodeTextInjective(p, q);
    }
  }

  /** No hash of a pair is the hash of an atom. */
  lemma NodesAreNotLeaves(sha: Sha, texts: set<string>, pairs: set<(string, string)>, atom: string)
    requires Sha256Like(sha) && CollisionFree(sha, texts)
    requires NodeTexts(pairs) <= texts && LeafText(atom) in texts
    ensures forall p :: p in pairs ==> NodeHash(sha)(p.0, p.1) != LeafHash(sha, atom)
  {
    forall p | p in pairs ensures NodeHash(sha)(p.0, p.1) != LeafHash(sha, atom) {
      var x := NodeText(p.0, p.1);
      assert x in NodeTexts(pairs);
      DomainsApart(atom, p.0, p.1);
      if ShaHex(sha, x) == LeafHash(sha, atom) { ShaHexInjective(sha, texts, x, LeafText(atom)); }
    }
  }

  lemma {:induction false} TreePairsWidth(sha: Sha, layer: seq<string>)
    requires Sha256Like(sha) && |layer| > 0
    requires forall i :: 0 <= i < |layer| ==> |layer[i]| == 64
    ensures forall p :: p in TreePairs(Layers(NodeHash(sha), layer)) ==> |p.0| == |p.1| == 64
    decreases |layer|
  {
    hide ShaHex;
    if |layer| > 1 {
      LayersAbove(NodeHash(sha), layer);
      TreePairsWidth(sha, NextLayer(NodeHash(sha), layer));
    }
  }

  lemma {:induction false} ClimbPairsWidth(sha: Sha, leaf: string, path: seq<Step<string>>)
    requires Sha256Like(sha) && |leaf| == 64
    ensures forall p :: p in ClimbPairs(NodeHash(sha), leaf, path) ==> |p.0| == 64 || |p.1| == 64
    ensures |Climb(NodeHash(sha), leaf, path)| == 64
  {
    if |path| > 0 {
      ClimbPairsWidth(sha, leaf, path[..|path| - 1]);
    }
  }

  /** What a proof hashes last is never the text of the empty library. */
  lemma ProofIsNotEmptyRoot(sha: Sha, texts: set<string>, proof: Proof)
    requires Sha256Like(sha) && CollisionFree(sha, texts)
    requires ProofTexts(sha, proof) <= texts && EMPTY_DOMAIN in texts
    ensures Climb(NodeHash(sha), LeafHash(sha, proof.leaf), proof.path) != ShaHex(sha, EMPTY_DOMAIN)
  {
    var leaf, path := LeafHash(sha, proof.leaf), proof.path;
    var last := LeafText(proof.leaf);
    var p := ("", "");
    if |path| > 0 {
      p := StepPair(Climb(NodeHash(sha), leaf, path[..|path| - 1]), path[|path| - 1]);
      assert p in ProofPairs(sha, proof);
      last := NodeText(p.0, p.1);
    }
    assert last in texts && Climb(NodeHash(sha), leaf, path) == ShaHex(sha, last);
    DomainsApart(proof.leaf, p.0, p.1);
    if ShaHex(sha, last) == ShaHex(sha, EMPTY_DOMAIN) { ShaHexInjective(sha, texts, last, EMPTY_DOMAIN); }
  }

  /** A verifying proof, whatever its siblings and its length, is about a member of the library;
      in particular the empty library admits none. */
  lemma MembershipSound(sha: Sha, atoms: set<string>, proof: Proof)
    requires Sha256Like(sha) && CollisionFree(sha, CommitTexts(sha, atoms) + ProofTexts(sha, proof))
    requires Verifies(sha, proof, Commit(sha, atoms))
    ensures proof.leaf in atoms
  {
    hide ShaHex, Climb, Root, CollisionFree, NodeText;
    var texts := CommitTexts(sha, atoms) + ProofTexts(sha, proof);
    var leaves := SortedKeys(atoms);
    if |leaves| == 0 {
      ProofIsNotEmptyRoot(sha, texts, proof);
    } else {
      var layer := LeafHashes(sha, leaves);
      assert forall i :: 0 <= i < |leaves| ==> leaves[i] in atoms;
      SoundInNonEmpty(sha, texts, atoms, proof);
      var i :| 0 <= i < |leaves| && layer[i] == LeafHash(sha, proof.leaf);
      ShaHexInjective(sha, texts, LeafText(leaves[i]), LeafText(proof.leaf));
      assert LeafText(leaves[i])[|LEAF_DOMAIN| + 1..] == leaves[i];
      assert LeafText(proof.leaf)[|LEAF_DOMAIN| + 1..] == proof.leaf;
    }
  }

  lemma SoundInNonEmpty(sha: Sha, texts: set<string>, atoms: set<string>, proof: Proof)
    requires Sha256Like(sha) && CollisionFree(sha, texts) && |SortedKeys(atoms)| > 0
    requires texts == CommitTexts(sha, atoms) + ProofTexts(sha, proof)
    requires Verifies(sha, proof, Commit(sha, atoms))
    ensures LeafHash(sha, proof.leaf) in LeafHashes(sha, SortedKeys(atoms))
  {
    hide ShaHex;
    var node := NodeHash(sha);
    var leaves := SortedKeys(atoms);
    var layer, leaf := LeafHashes(sha, leaves), LeafHash(sha, proof.leaf);
    var layers := Layers(node, layer);
    TreePairsWidth(sha, layer);
    ClimbPairsWidth(sha, leaf, proof.path);
    NodesApart(sha, texts, TreePairs(layers), ProofPairs(sha, proof));
    NodesAreNotLeaves(sha, texts, TreePairs(layers), proof.leaf);
    forall p | p in ProofPairs(sha, proof) ensures node(p.0, p.1) !in layer {
      forall i | 0 <= i < |leaves| ensures node(p.0, p.1) != layer[i] {
        assert leaves[i] in atoms;
        NodesAreNotLeaves(sha, texts, ProofPairs(sha, proof), leaves[i]);
      }
    }
    RootIsTop(node, layer);
    ClimbStartsAtLeaf(node, layer, leaf, proof.path, |layers| - 1);
  }

  /** The root depends on the set of atoms only, and tells different sets apart. */
  lemma RootDeterminesLibrary(sha: Sha, a: set<string>, b: set<string>)
    requires Sha256Like(sha) && CollisionFree(sha, CommitTexts(sha, a) + CommitTexts(sha, b))
    ensures Commit(sha, a).root == Commit(sha, b).root <==> a == b
  {
    if Commit(sha, a).root == Commit(sha, b).root {
      SameRootSubset(sha, a, b);
      SameRootSubset(sha, b, a);
    }
  }

  lemma SameRootSubset(sha: Sha, a: set<string>, b: set<string>)
    requires Sha256Like(sha) && CollisionFree(sha, CommitTexts(sha, a) + CommitTexts(sha, b))
    requires Commit(sha, a).root == Commit(sha, b).root
    ensures a <= b
  {
    hide ShaHex, LeafHashes, CommitTexts, ProofTexts, Layers, Climb, PathFrom;
    var leaves := SortedKeys(a);
    forall x | x in a ensures x in b {
      var i :| 0 <= i < |leaves| && leaves[i] == x;
      MembershipComplete(sha, a, i);
      var proof := ProofAt(sha, Commit(sha, a), i);
      ProofTextsOfMember(sha, a, i);
      MembershipSound(sha, b, proof);
    }
  }

  /** Checking a library's own proof hashes nothing that committing did not hash. */
  lemma ProofTextsOfMember(sha: Sha, atoms: set<string>, index: nat)
    requires Sha256Like(sha) && index < |SortedKeys(atoms)|
    ensures ProofTexts(sha, ProofAt(sha, Commit(sha, atoms), index)) <= CommitTexts(sha, atoms)
  {
    var leaves := SortedKeys(atoms);
    assert leaves[index] in atoms;
    PathPairsInTree(NodeHash(sha), LeafHashes(sha, leaves), index);
  }
}
