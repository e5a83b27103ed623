/**
 What an accepted proof and an equal root say about a tree. The hash is arbitrary, so each result
 reads "or two different byte strings, among the finitely many hashed here, have one digest".
 */
module MerkleSoundness {
  import opened Prelude
  import opened Crypto
  import opened Merkle

  // ---- What is hashed ----

  /** The 64 bytes hashed into node `i` of the level above. */
  function NodeInput(level: seq<Digest>, i: nat): (input: Bytes)
    requires level != []
    ensures |input| == 64
  {
    At(level, 2 * i) + At(level, 2 * i + 1)
  }

  function LevelInputs(level: seq<Digest>): set<Bytes>
    requires level != []
  {
    set i: nat | 0 <= i < (|level| + 1) / 2 :: NodeInput(level, i)
  }

  /** Every byte string hashed while building the tree. */
  function TreeInputs(cs: Suite, leaves: seq<Digest>): set<Bytes>
    requires leaves != []
    decreases |leaves|
  {
    if |leaves| == 1 then {} else LevelInputs(leaves) + TreeInputs(cs, NextLevel(cs, leaves))
  }

  function StepInput(hash: Digest, item: Bytes): Bytes
    requires |item| == HASH_SIZE + 1
  {
    if item[..1] == LEFT_SIBLING then item[1..] + hash else hash + item[1..]
  }

  /** Every byte string hashed while checking a proof. */
  function FoldInputs(cs: Suite, hash: Digest, proof: seq<Bytes>): set<Bytes>
    decreases |proof|
  {
    if proof == [] then {}
    else match ProofStep(cs, hash, proof[0])
      case None => {}
      case Some(parent) => {StepInput(hash, proof[0])} + FoldInputs(cs, parent, proof[1..])
  }

  // ---- Containment, level by level ----

  ghost predicate LevelWithin(level: seq<Digest>, hashed: set<Bytes>)
    requires level != []
  {
    forall i: nat :: i < (|level| + 1) / 2 ==> NodeInput(level, i) in hashed
  }

  /** Everything the tree hashes is among `hashed`. */
  ghost predicate TreeWithin(cs: Suite, leaves: seq<Digest>, hashed: set<Bytes>)
    requires leaves != []
    decreases |leaves|
  {
    |leaves| > 1 ==> LevelWithin(leaves, hashed) && TreeWithin(cs, NextLevel(cs, leaves), hashed)
  }

  lemma {:induction false} InputsWithin(cs: Suite, leaves: seq<Digest>, hashed: set<Bytes>)
    requires leaves != [] && TreeInputs(cs, leaves) <= hashed
    ensures TreeWithin(cs, leaves, hashed)
    decreases |leaves|
  {
    if |leaves| > 1 {
      assert TreeInputs(cs, leaves) == LevelInputs(leaves) + TreeInputs(cs, NextLevel(cs, leaves));
      assert forall i: nat :: i < (|leaves| + 1) / 2 ==> NodeInput(leaves, i) in LevelInputs(leaves);
      InputsWithin(cs, NextLevel(cs, leaves), hashed);
    }
  }

  lemma {:induction false} WithinStep(cs: Suite, leaves: seq<Digest>, d: nat, hashed: set<Bytes>)
    requires leaves != [] && 0 < d <= Height(|leaves|) && TreeWithin(cs, LevelAt(cs, leaves, d - 1), hashed)
    ensures TreeWithin(cs, LevelAt(cs, leaves, d), hashed)
  {
    LevelHeight(cs, leaves, d - 1);
    HeightStep(cs, LevelAt(cs, leaves, d - 1));
  }

  lemma {:induction false} WithinBelow(cs: Suite, leaves: seq<Digest>, d: nat, hashed: set<Bytes>)
    requires leaves != [] && d <= Height(|leaves|) && TreeWithin(cs, leaves, hashed)
    ensures TreeWithin(cs, LevelAt(cs, leaves, d), hashed)
    decreases d
  {
    if d > 0 {
      WithinBelow(cs, leaves, d - 1, hashed);
      WithinStep(cs, leaves, d, hashed);
    }
  }

  lemma {:induction false} WithinAbove(cs: Suite, leaves: seq<Digest>, d: nat, hashed: set<Bytes>)
    requires leaves != [] && d < Height(|leaves|) && TreeWithin(cs, leaves, hashed)
    ensures LevelWithin(LevelAt(cs, leaves, d), hashed)
  {
    WithinBelow(cs, leaves, d, hashed);
    LevelHeight(cs, leaves, d);
  }

  lemma HalvesEqual(a: Digest, b: Digest, c: Digest, d: Digest)
    requires a + b == c + d
    ensures a == c && b == d
  {
    assert a == (a + b)[..32] && b == (a + b)[32..];
    assert c == (c + d)[..32] && d == (c + d)[32..];
  }

  // ---- Proof soundness ----

  /** The node a proof's direction bytes lead to, walking down from the root of a tree with `n` leaves and
      stepping from a duplicated node back to the real one. */
  function Spelled(proof: seq<Bytes>, n: nat): (p: nat)
    requires n >= 1 && forall i :: 0 <= i < |proof| ==> proof[i] != []
    ensures p < n
  {
    if proof == [] then 0 else
      var p := 2 * Spelled(proof[1..], (n + 1) / 2) + if proof[0][..1] == LEFT_SIBLING then 1 else 0;
      if p < n then p else n - 1
  }

  lemma {:induction false} FoldItems(cs: Suite, hash: Digest, proof: seq<Bytes>)
    requires Fold(cs, hash, proof).Some?
    ensures forall i :: 0 <= i < |proof| ==> |proof[i]| == HASH_SIZE + 1 && proof[i] != []
    decreases |proof|
  {
    if proof != [] {
      FoldItems(cs, ProofStep(cs, hash, proof[0]).value, proof[1..]);
      assert forall i :: 0 < i < |proof| ==> proof[i] == proof[1..][i - 1];
    }
  }

  lemma {:induction false} FullProofSound(cs: Suite, leaves: seq<Digest>, leaf: Digest, proof: seq<Bytes>,
                                          hashed: set<Bytes>)
    requires leaves != [] && |proof| == Height(|leaves|)
    requires !HasCollision(cs, hashed)
    requires TreeWithin(cs, leaves, hashed) && FoldInputs(cs, leaf, proof) <= hashed
    requires Fold(cs, leaf, proof) == Some(Root(cs, leaves))
    requires forall i :: 0 <= i < |proof| ==> proof[i] != []
    ensures leaf == leaves[Spelled(proof, |leaves|)]
    decreases |proof|
  {
    if proof != [] {
      var next := NextLevel(cs, leaves);
      var parent := ProofStep(cs, leaf, proof[0]).value;
      FullProofSound(cs, next, parent, proof[1..], hashed);
      var q := Spelled(proof[1..], |next|);
      assert parent == next[q] == ParentAt(cs, leaves, q);
      assert NodeInput(leaves, q) in hashed;
      Injective(cs, hashed, StepInput(leaf, proof[0]), NodeInput(leaves, q));
      if proof[0][..1] == LEFT_SIBLING {
        HalvesEqual(proof[0][1..], leaf, At(leaves, 2 * q), At(leaves, 2 * q + 1));
      } else {
        HalvesEqual(leaf, proof[0][1..], At(leaves, 2 * q), At(leaves, 2 * q + 1));
      }
    }
  }

  /** A proof no longer than the tree is high is a full proof for the tree above some level. */
  lemma {:induction false} LevelProofSound(cs: Suite, leaves: seq<Digest>, d: nat, leaf: Digest,
                                           proof: seq<Bytes>, hashed: set<Bytes>)
    requires leaves != [] && |proof| + d == Height(|leaves|) && Fold(cs, leaf, proof) == Some(Root(cs, leaves))
    requires forall i :: 0 <= i < |proof| ==> proof[i] != []
    requires !HasCollision(cs, hashed) && TreeWithin(cs, leaves, hashed) && FoldInputs(cs, leaf, proof) <= hashed
    ensures leaf == LevelAt(cs, leaves, d)[Spelled(proof, |LevelAt(cs, leaves, d)|)]
  {
    LevelHeight(cs, leaves, d);
    LevelRoot(cs, leaves, d);
    WithinBelow(cs, leaves, d, hashed);
    FullProofSound(cs, LevelAt(cs, leaves, d), leaf, proof, hashed);
  }

  lemma {:induction false} ProofSoundWithin(cs: Suite, leaves: seq<Digest>, leaf: Digest, proof: seq<Bytes>,
                                            hashed: set<Bytes>)
    requires leaves != [] && |proof| <= Height(|leaves|) && Fold(cs, leaf, proof) == Some(Root(cs, leaves))
    requires forall i :: 0 <= i < |proof| ==> proof[i] != []
    requires !HasCollision(cs, hashed) && TreeInputs(cs, leaves) <= hashed && FoldInputs(cs, leaf, proof) <= hashed
    ensures var level := LevelAt(cs, leaves, Height(|leaves|) - |proof|);
            leaf == level[Spelled(proof, |level|)]
  {
    InputsWithin(cs, leaves, hashed);
    LevelProofSound(cs, leaves, Height(|leaves|) - |proof|, leaf, proof, hashed);
  }

  /** An accepted proof no longer than the tree is high is for the node it spells, on the level its length picks. */
  lemma ProofSoundness(cs: Suite, leaves: seq<Digest>, leaf: Digest, proof: seq<Bytes>)
    requires leaves != [] && Accepts(cs, leaf, proof, Root(cs, leaves))
    requires |proof| <= Height(|leaves|)
    ensures forall i :: 0 <= i < |proof| ==> proof[i] != []
    ensures var level := LevelAt(cs, leaves, Height(|leaves|) - |proof|);
            || leaf == level[Spelled(proof, |level|)]
            || HasCollision(cs, TreeInputs(cs, leaves) + FoldInputs(cs, leaf, proof))
  {
    FoldItems(cs, leaf, proof);
    var hashed := TreeInputs(cs, leaves) + FoldInputs(cs, leaf, proof);
    if !HasCollision(cs, hashed) { ProofSoundWithin(cs, leaves, leaf, proof, hashed); }
  }

  lemma {:induction false} FoldSplit(cs: Suite, hash: Digest, proof: seq<Bytes>, j: nat)
    requires j <= |proof| && Fold(cs, hash, proof).Some?
    ensures Fold(cs, hash, proof[..j]).Some?
    ensures Fold(cs, Fold(cs, hash, proof[..j]).value, proof[j..]) == Fold(cs, hash, proof)
    ensures FoldInputs(cs, Fold(cs, hash, proof[..j]).value, proof[j..]) <= FoldInputs(cs, hash, proof)
    ensures FoldInputs(cs, hash, proof[..j]) <= FoldInputs(cs, hash, proof)
    decreases j
  {
    if j > 0 {
      var parent := ProofStep(cs, hash, proof[0]).value;
      FoldSplit(cs, parent, proof[1..], j - 1);
      assert proof[..j][0] == proof[0] && proof[..j][1..] == proof[1..][..j - 1] && proof[1..][j - 1..] == proof[j..];
    }
  }

  lemma {:induction false} LongProofWithin(cs: Suite, leaves: seq<Digest>, leaf: Digest, proof: seq<Bytes>, j: nat,
                                           hashed: set<Bytes>)
    requires leaves != [] && |proof| == j + Height(|leaves|) && Fold(cs, leaf, proof) == Some(Root(cs, leaves))
    requires forall i :: 0 <= i < |proof| ==> proof[i] != []
    requires !HasCollision(cs, hashed) && TreeWithin(cs, leaves, hashed) && FoldInputs(cs, leaf, proof) <= hashed
    ensures Fold(cs, leaf, proof[..j]) == Some(leaves[Spelled(proof[j..], |leaves|)])
  {
    FoldSplit(cs, leaf, proof, j);
    FullProofSound(cs, leaves, Fold(cs, leaf, proof[..j]).value, proof[j..], hashed);
  }

  /** An accepted proof longer than the tree is high passes through a real leaf first. */
  lemma LongProof(cs: Suite, leaves: seq<Digest>, leaf: Digest, proof: seq<Bytes>)
    requires leaves != [] && Accepts(cs, leaf, proof, Root(cs, leaves))
    requires |proof| > Height(|leaves|)
    ensures forall i :: 0 <= i < |proof| ==> proof[i] != []
    ensures var j := |proof| - Height(|leaves|);
            || Fold(cs, leaf, proof[..j]) == Some(leaves[Spelled(proof[j..], |leaves|)])
            || HasCollision(cs, TreeInputs(cs, leaves) + FoldInputs(cs, leaf, proof))
  {
    FoldItems(cs, leaf, proof);
    var hashed := TreeInputs(cs, leaves) + FoldInputs(cs, leaf, proof);
    if !HasCollision(cs, hashed) {
      InputsWithin(cs, leaves, hashed);
      LongProofWithin(cs, leaves, leaf, proof, |proof| - Height(|leaves|), hashed);
    }
  }

  /** A fold of at least one step ends in the digest of 64 bytes it hashed. */
  lemma {:induction false} FoldEndsInNode(cs: Suite, hash: Digest, proof: seq<Bytes>) returns (input: Bytes)
    requires proof != [] && Fold(cs, hash, proof).Some?
    ensures input in FoldInputs(cs, hash, proof) && |input| == 64
    ensures Fold(cs, hash, proof) == Some(cs.sha3(input))
    decreases |proof|
  {
    var parent := ProofStep(cs, hash, proof[0]).value;
    if |proof| == 1 {
      input := StepInput(hash, proof[0]);
    } else {
      input := FoldEndsInNode(cs, parent, proof[1..]);
    }
  }

  /** Why the length matters: every inner node has an accepted proof, shorter by its level. */
  lemma InnerNodesHaveProofs(cs: Suite, leaves: seq<Digest>, d: nat, p: nat)
    requires leaves != [] && d <= Height(|leaves|) && p < |LevelAt(cs, leaves, d)|
    ensures var proof := ProofOf(cs, LevelAt(cs, leaves, d), p);
            && |proof| == Height(|leaves|) - d
            && Accepts(cs, LevelAt(cs, leaves, d)[p], proof, Root(cs, leaves))
  {
    LevelHeight(cs, leaves, d);
    LevelRoot(cs, leaves, d);
    ProofComplete(cs, LevelAt(cs, leaves, d), p);
  }

  lemma {:induction false} ParentIsHashed(cs: Suite, leaves: seq<Digest>, d: nat, p: nat, hashed: set<Bytes>)
    requires leaves != [] && d > 0 && p < |LevelAt(cs, leaves, d)| && LevelWithin(LevelAt(cs, leaves, d - 1), hashed)
    ensures LevelAt(cs, leaves, d)[p] == cs.sha3(NodeInput(LevelAt(cs, leaves, d - 1), p))
    ensures NodeInput(LevelAt(cs, leaves, d - 1), p) in hashed
  {
  }

  /** Every node above the leaves is the digest of 64 bytes hashed while building the tree. */
  lemma {:induction false} InnerNode(cs: Suite, leaves: seq<Digest>, d: nat, p: nat,
                                     hashed: set<Bytes>) returns (input: Bytes)
    requires leaves != [] && 0 < d <= Height(|leaves|) && p < |LevelAt(cs, leaves, d)| && TreeWithin(cs, leaves, hashed)
    ensures input == NodeInput(LevelAt(cs, leaves, d - 1), p) && |input| == 64
    ensures LevelAt(cs, leaves, d)[p] == cs.sha3(input)
    ensures input in hashed
  {
    input := NodeInput(LevelAt(cs, leaves, d - 1), p);
    WithinAbove(cs, leaves, d - 1, hashed);
    ParentIsHashed(cs, leaves, d, p, hashed);
  }

  /** What a proof shorter than the tree is high can show: the digest of 64 bytes hashed in the tree. */
  lemma {:induction false} ShortProof(cs: Suite, leaves: seq<Digest>, leaf: Digest, proof: seq<Bytes>,
                                      hashed: set<Bytes>) returns (input: Bytes)
    requires leaves != [] && Accepts(cs, leaf, proof, Root(cs, leaves))
    requires |proof| < Height(|leaves|)
    requires !HasCollision(cs, hashed)
    requires TreeWithin(cs, leaves, hashed) && FoldInputs(cs, leaf, proof) <= hashed
    ensures input in hashed && |input| == 64 && leaf == cs.sha3(input)
  {
    FoldItems(cs, leaf, proof);
    var d := Height(|leaves|) - |proof|;
    LevelProofSound(cs, leaves, d, leaf, proof, hashed);
    input := InnerNode(cs, leaves, d, Spelled(proof, |LevelAt(cs, leaves, d)|), hashed);
  }

  // ---- Root binding ----

  predicate DifferAt(level: seq<Digest>, i: nat, j: nat)
    requires i < j < |level|
  {
    level[i] != level[j]
  }

  ghost predicate Distinct(level: seq<Digest>) {
    forall i: nat, j: nat {:trigger DifferAt(level, i, j)} :: i < j < |level| ==> DifferAt(level, i, j)
  }

  lemma DistinctAbove(cs: Suite, level: seq<Digest>, hashed: set<Bytes>)
    requires level != [] && Distinct(level)
    requires !HasCollision(cs, hashed) && LevelWithin(level, hashed)
    ensures Distinct(NextLevel(cs, level))
  {
    var next := NextLevel(cs, level);
    forall i: nat, j: nat | i < j < |next| ensures DifferAt(next, i, j) {
      assert NodeInput(level, i) in hashed && NodeInput(level, j) in hashed;
      assert DifferAt(level, 2 * i, 2 * j);
      if next[i] == next[j] {
        Injective(cs, hashed, NodeInput(level, i), NodeInput(level, j));
        HalvesEqual(At(level, 2 * i), At(level, 2 * i + 1), At(level, 2 * j), At(level, 2 * j + 1));
      }
    }
  }

  lemma {:induction false} DistinctStep(cs: Suite, leaves: seq<Digest>, d: nat, hashed: set<Bytes>)
    requires leaves != [] && d > 0 && !HasCollision(cs, hashed)
    requires Distinct(LevelAt(cs, leaves, d - 1)) && LevelWithin(LevelAt(cs, leaves, d - 1), hashed)
    ensures Distinct(LevelAt(cs, leaves, d))
  {
    DistinctAbove(cs, LevelAt(cs, leaves, d - 1), hashed);
  }

  lemma {:induction false} DistinctAt(cs: Suite, leaves: seq<Digest>, d: nat, hashed: set<Bytes>)
    requires leaves != [] && Distinct(leaves) && d <= Height(|leaves|)
    requires !HasCollision(cs, hashed) && TreeWithin(cs, leaves, hashed)
    ensures Distinct(LevelAt(cs, leaves, d))
    decreases d
  {
    if d > 0 {
      DistinctAt(cs, leaves, d - 1, hashed);
      WithinAbove(cs, leaves, d - 1, hashed);
      DistinctStep(cs, leaves, d, hashed);
    }
  }

  /** Equal parents come from equal children, up to the padding of an odd level. */
  lemma EqualParents(cs: Suite, xs: seq<Digest>, ys: seq<Digest>, hashed: set<Bytes>, i: nat)
    requires xs != [] && ys != [] && !HasCollision(cs, hashed)
    requires LevelWithin(xs, hashed) && LevelWithin(ys, hashed)
    requires NextLevel(cs, xs) == NextLevel(cs, ys)
    requires i < 2 * |NextLevel(cs, xs)|
    ensures At(xs, i) == At(ys, i)
  {
    var j := i / 2;
    assert NextLevel(cs, xs)[j] == ParentAt(cs, xs, j) && NextLevel(cs, ys)[j] == ParentAt(cs, ys, j);
    assert NodeInput(xs, j) in hashed && NodeInput(ys, j) in hashed;
    Injective(cs, hashed, NodeInput(xs, j), NodeInput(ys, j));
    HalvesEqual(At(xs, 2 * j), At(xs, 2 * j + 1), At(ys, 2 * j), At(ys, 2 * j + 1));
  }

  lemma EqualNextLevels(cs: Suite, xs: seq<Digest>, ys: seq<Digest>, hashed: set<Bytes>)
    requires |xs| > 1 && |ys| > 1 && Distinct(xs) && Distinct(ys)
    requires !HasCollision(cs, hashed)
    requires LevelWithin(xs, hashed) && LevelWithin(ys, hashed)
    requires NextLevel(cs, xs) == NextLevel(cs, ys)
    ensures xs == ys
  {
    var n := 2 * |NextLevel(cs, xs)|;
    forall i: nat | i < n ensures At(xs, i) == At(ys, i) {
      EqualParents(cs, xs, ys, hashed, i);
    }
    assert |NextLevel(cs, xs)| == |NextLevel(cs, ys)|;
    assert At(xs, n - 1) == At(ys, n - 1) && At(xs, n - 2) == At(ys, n - 2);
    assert n == |xs| ==> DifferAt(xs, n - 2, n - 1);
    assert n == |ys| ==> DifferAt(ys, n - 2, n - 1);
    assert forall i: nat :: i < |xs| ==> xs[i] == At(xs, i) && ys[i] == At(ys, i);
  }

  /** Among trees of one height with pairwise distinct leaves, the root determines the leaves. */
  lemma {:induction false} SameHeightBinding(cs: Suite, xs: seq<Digest>, ys: seq<Digest>, hashed: set<Bytes>)
    requires xs != [] && ys != [] && Height(|xs|) == Height(|ys|)
    requires Distinct(xs) && Distinct(ys)
    requires !HasCollision(cs, hashed)
    requires TreeWithin(cs, xs, hashed) && TreeWithin(cs, ys, hashed)
    requires Root(cs, xs) == Root(cs, ys)
    ensures xs == ys
    decreases |xs|
  {
    if |xs| == 1 {
      assert |ys| == 1;
    } else {
      DistinctAbove(cs, xs, hashed);
      DistinctAbove(cs, ys, hashed);
      SameHeightBinding(cs, NextLevel(cs, xs), NextLevel(cs, ys), hashed);
      EqualNextLevels(cs, xs, ys, hashed);
    }
  }

  /** A lower tree with the same root as a higher one has a whole inner level of the latter as its leaves. */
  lemma {:induction false} DifferentHeightBinding(cs: Suite, xs: seq<Digest>, ys: seq<Digest>, d: nat,
                                                  hashed: set<Bytes>)
    requires xs != [] && ys != [] && Height(|xs|) + d == Height(|ys|)
    requires Distinct(xs) && Distinct(ys)
    requires !HasCollision(cs, hashed)
    requires TreeWithin(cs, xs, hashed) && TreeWithin(cs, ys, hashed)
    requires Root(cs, xs) == Root(cs, ys)
    ensures xs == LevelAt(cs, ys, d)
  {
    InnerTree(cs, ys, d, hashed);
    SameHeightBinding(cs, xs, LevelAt(cs, ys, d), hashed);
  }

  /** An inner level is itself the leaves of a tree to which everything above applies. */
  lemma {:induction false} InnerTree(cs: Suite, leaves: seq<Digest>, d: nat, hashed: set<Bytes>)
    requires leaves != [] && Distinct(leaves) && d <= Height(|leaves|)
    requires !HasCollision(cs, hashed) && TreeWithin(cs, leaves, hashed)
    ensures var level := LevelAt(cs, leaves, d);
            && Height(|level|) == Height(|leaves|) - d && Root(cs, level) == Root(cs, leaves)
            && Distinct(level) && TreeWithin(cs, level, hashed)
  {
    LevelHeight(cs, leaves, d);
    LevelRoot(cs, leaves, d);
    WithinBelow(cs, leaves, d, hashed);
    DistinctAt(cs, leaves, d, hashed);
  }
}
