/**
 A root from its leaves, top down; and when two trees have one root: exactly when every path leads to the same leaf in
 both, short of a collision.
 */
module RootAgreement {
  import opened Prelude
  import opened Crypto
  import opened LedgerCore
  import opened Merkle
  import opened MerkleSoundness

  /** The node that a path, low bit first, leads to among `n`, stepping back from a duplicated node to the real one. */
  function Reached(path: seq<bool>, n: nat): (p: nat)
    requires n >= 1
    ensures p < n
  {
    if path == [] then 0 else
      var p := 2 * Reached(path[1..], (n + 1) / 2) + if path[0] then 1 else 0;
      if p < n then p else n - 1
  }

  /** A proof's direction bytes are such a path. */
  lemma {:induction false} SpelledIsReached(proof: seq<Bytes>, path: seq<bool>, n: nat)
    requires n >= 1 && |path| == |proof|
    requires forall i :: 0 <= i < |proof| ==> proof[i] != [] && path[i] == (proof[i][..1] == LEFT_SIBLING)
    ensures Spelled(proof, n) == Reached(path, n)
    decreases |proof|
  {
    if proof != [] { SpelledIsReached(proof[1..], path[1..], (n + 1) / 2); }
  }

  // ---- The tree from its leaves, top down ----

  /** The path to the left or the right child. */
  function Down(path: seq<bool>, right: bool): seq<bool> { [right] + path }

  /** The node `h` levels above the leaves at the end of the path: the leaf itself, or the hash of the digest to its
      left followed by the digest to its right. */
  function Subtree(cs: Suite, leaves: seq<Digest>, h: nat, path: seq<bool>): Digest
    requires leaves != []
  {
    if h == 0 then leaves[Reached(path, |leaves|)]
    else cs.sha3(Subtree(cs, leaves, h - 1, Down(path, false)) + Subtree(cs, leaves, h - 1, Down(path, true)))
  }

  /** The node of a level that a path leads to. */
  function NodeOf(level: seq<Digest>, path: seq<bool>): Digest
    requires level != []
  {
    level[Reached(path, |level|)]
  }

  lemma {:induction false} SubtreeIsNode(cs: Suite, leaves: seq<Digest>, h: nat, level: seq<Digest>, path: seq<bool>)
    requires leaves != [] && level == LevelAt(cs, leaves, h)
    ensures Subtree(cs, leaves, h, path) == NodeOf(level, path)
  {
    if h > 0 {
      var below := LevelAt(cs, leaves, h - 1);
      SubtreeIsNode(cs, leaves, h - 1, below, Down(path, false));
      SubtreeIsNode(cs, leaves, h - 1, below, Down(path, true));
      NodeAbove(cs, below, path);
    }
  }

  lemma {:induction false} NodeAbove(cs: Suite, below: seq<Digest>, path: seq<bool>)
    requires below != []
    ensures NodeOf(NextLevel(cs, below), path)
              == cs.sha3(NodeOf(below, Down(path, false)) + NodeOf(below, Down(path, true)))
  {
    var i := Reached(path, (|below| + 1) / 2);
    StepDown(below, path, false);
    StepDown(below, path, true);
    assert NextLevel(cs, below)[i] == ParentAt(cs, below, i);
  }

  /** The root the bottom-up loop computes is the top of that tree. */
  lemma RootFromLeaves(cs: Suite, leaves: seq<Digest>)
    requires leaves != []
    ensures Root(cs, leaves) == Subtree(cs, leaves, Height(|leaves|), [])
  {
    SubtreeIsNode(cs, leaves, Height(|leaves|), LevelAt(cs, leaves, Height(|leaves|)), []);
    LevelsShape(cs, leaves);
    assert Levels(cs, leaves)[Height(|leaves|)] == LevelAt(cs, leaves, Height(|leaves|));
  }

  /** The path to position `p`, low bit first. */
  function PathTo(p: nat, length: nat): (path: seq<bool>)
    ensures |path| == length
  {
    if length == 0 then [] else [p % 2 == 1] + PathTo(p / 2, length - 1)
  }

  /** Every leaf lies at the end of its path. */
  lemma {:induction false} ReachesPosition(p: nat, length: nat, n: nat)
    requires p < n <= Pow2(length)
    ensures Reached(PathTo(p, length), n) == p
  {
    if length > 0 {
      ReachesPosition(p / 2, length - 1, (n + 1) / 2);
      assert PathTo(p, length)[1..] == PathTo(p / 2, length - 1);
    }
  }

  lemma {:induction false} SubtreeOfNext(cs: Suite, leaves: seq<Digest>, h: nat, path: seq<bool>)
    requires leaves != []
    ensures Subtree(cs, NextLevel(cs, leaves), h, path) == Subtree(cs, leaves, h + 1, path)
  {
    LevelAtShift(cs, leaves, h);
    SubtreeIsNode(cs, NextLevel(cs, leaves), h, LevelAt(cs, leaves, h + 1), path);
    SubtreeIsNode(cs, leaves, h + 1, LevelAt(cs, leaves, h + 1), path);
  }

  /** Item `j` of the proof of leaf `p`: byte 0 and what lies to the left of the path at that level, or byte 1 and what
      lies to its right, which is the node itself where the level has ended. */
  predicate ItemIs(cs: Suite, leaves: seq<Digest>, p: nat, j: nat, item: Bytes)
    requires leaves != [] && j < Height(|leaves|)
  {
    var path := PathTo(p, Height(|leaves|));
    item == (if path[j] then [0] else [1]) + Subtree(cs, leaves, j, [!path[j]] + path[j + 1..])
  }

  lemma SiblingItem(level: seq<Digest>, p: nat)
    requires p < |level|
    ensures ProofItem(level, p)
              == (if p % 2 == 1 then [0] else [1]) + At(level, 2 * (p / 2) + if p % 2 == 1 then 0 else 1)
  {
  }

  lemma {:induction false} SiblingReached(leaves: seq<Digest>, p: nat, length: nat, right: bool)
    requires p < |leaves| && (|leaves| + 1) / 2 <= Pow2(length)
    ensures leaves[Reached([right] + PathTo(p / 2, length), |leaves|)]
              == At(leaves, 2 * (p / 2) + if right then 1 else 0)
  {
    ReachesPosition(p / 2, length, (|leaves| + 1) / 2);
    StepDown(leaves, PathTo(p / 2, length), right);
  }

  lemma {:induction false} FirstItem(cs: Suite, leaves: seq<Digest>, p: nat)
    requires p < |leaves| && |leaves| > 1
    ensures ItemIs(cs, leaves, p, 0, ProofItem(leaves, p))
  {
    var h, right := Height(|leaves|) - 1, !(p % 2 == 1);
    var path := PathTo(p, Height(|leaves|));
    assert path == [p % 2 == 1] + PathTo(p / 2, h);
    assert [!path[0]] + path[0 + 1..] == [right] + PathTo(p / 2, h);
    HeightIsCeilLog((|leaves| + 1) / 2);
    SiblingReached(leaves, p, h, right);
    SiblingItem(leaves, p);
    LeafSubtree(cs, leaves, [right] + PathTo(p / 2, h));
  }

  lemma LeafSubtree(cs: Suite, leaves: seq<Digest>, path: seq<bool>)
    requires leaves != []
    ensures Subtree(cs, leaves, 0, path) == leaves[Reached(path, |leaves|)]
  {
  }

  /** What is said of a later item is said of the level above. */
  lemma {:induction false} ItemAbove(cs: Suite, leaves: seq<Digest>, p: nat, j: nat, item: Bytes)
    requires |leaves| > 1 && j < Height(|NextLevel(cs, leaves)|)
    requires ItemIs(cs, NextLevel(cs, leaves), p / 2, j, item)
    ensures ItemIs(cs, leaves, p, j + 1, item)
  {
    var path, above := PathTo(p, Height(|leaves|)), PathTo(p / 2, Height(|NextLevel(cs, leaves)|));
    assert path == [p % 2 == 1] + above;
    assert path[j + 1] == above[j] && path[j + 1 + 1..] == above[j + 1..];
    SubtreeOfNext(cs, leaves, j, [!above[j]] + above[j + 1..]);
  }

  lemma {:induction false} ProofItemsExactly(cs: Suite, leaves: seq<Digest>, p: nat, j: nat)
    requires p < |leaves| && j < Height(|leaves|)
    ensures ItemIs(cs, leaves, p, j, ProofOf(cs, leaves, p)[j])
    decreases j
  {
    if j == 0 {
      FirstItem(cs, leaves, p);
    } else {
      var next := NextLevel(cs, leaves);
      ProofItemsExactly(cs, next, p / 2, j - 1);
      ProofAbove(cs, leaves, p, j - 1);
      ItemAbove(cs, leaves, p, j - 1, ProofOf(cs, next, p / 2)[j - 1]);
    }
  }

  lemma {:induction false} ProofAbove(cs: Suite, leaves: seq<Digest>, p: nat, j: nat)
    requires p < |leaves| && |leaves| > 1 && j < Height(|NextLevel(cs, leaves)|)
    ensures ProofOf(cs, leaves, p)[j + 1] == ProofOf(cs, NextLevel(cs, leaves), p / 2)[j]
  {
  }

  /** Every item of the proof `get_proof` gives for an entry, from the leaves alone. */
  lemma {:induction false} EntryProofItems(cs: Suite, entries: seq<LedgerEntry>, i: nat, j: nat)
    requires i < |entries| && TreeOf(cs, entries).Success? && j < Height(|entries|)
    ensures var t := TreeOf(cs, entries).value;
            && t.WellFormed() && entries[i].entryId in t.entryPositions
            && var proof := ProofAlong(t.levels, 0, t.entryPositions[entries[i].entryId]);
               |proof| == Height(|entries|) && ItemIs(cs, LeafHashes(entries), i, j, proof[j])
  {
    TreeOfWellFormed(cs, entries);
    ProofAlongLevels(cs, LeafHashes(entries), 0, i);
    ProofItemsExactly(cs, LeafHashes(entries), i, j);
  }

  // ---- Checking a proof, item by item ----

  /** One item: byte 0 puts its digest to the left of the hash, byte 1 to the right. */
  predicate Climbs(cs: Suite, hash: Digest, item: Bytes, parent: Digest) {
    && |item| == 33
    && ((item[0] == 0 && parent == cs.sha3(item[1..] + hash)) || (item[0] == 1 && parent == cs.sha3(hash + item[1..])))
  }

  /** The proof leads through these hashes, from the leaf to the root. */
  predicate LeadsThrough(cs: Suite, proof: seq<Bytes>, hashes: seq<Digest>) {
    && |hashes| == |proof| + 1
    && forall i :: 0 <= i < |proof| ==> Climbs(cs, hashes[i], proof[i], hashes[i + 1])
  }

  lemma ClimbsExactly(cs: Suite, hash: Digest, item: Bytes, parent: Digest)
    ensures ProofStep(cs, hash, item) == Some(parent) <==> Climbs(cs, hash, item, parent)
  {
    if |item| == 33 { assert item[..1] == [item[0]]; }
  }

  lemma {:induction false} FoldLeads(cs: Suite, hash: Digest, proof: seq<Bytes>) returns (hashes: seq<Digest>)
    requires Fold(cs, hash, proof).Some?
    ensures LeadsThrough(cs, proof, hashes) && hashes[0] == hash && hashes[|proof|] == Fold(cs, hash, proof).value
    decreases |proof|
  {
    hashes := [hash];
    if proof != [] {
      var parent := ProofStep(cs, hash, proof[0]).value;
      ClimbsExactly(cs, hash, proof[0], parent);
      var rest := FoldLeads(cs, parent, proof[1..]);
      hashes := hashes + rest;
      assert forall i :: 0 < i < |proof| ==> hashes[i] == rest[i - 1] && proof[i] == proof[1..][i - 1];
    }
  }

  lemma {:induction false} LeadsFold(cs: Suite, proof: seq<Bytes>, hashes: seq<Digest>)
    requires LeadsThrough(cs, proof, hashes)
    ensures Fold(cs, hashes[0], proof) == Some(hashes[|proof|])
    decreases |proof|
  {
    if proof != [] {
      ClimbsExactly(cs, hashes[0], proof[0], hashes[1]);
      assert forall i :: 0 <= i < |proof| - 1 ==> hashes[1..][i] == hashes[i + 1] && proof[1..][i] == proof[i + 1];
      LeadsFold(cs, proof[1..], hashes[1..]);
    }
  }

  /** A proof is accepted exactly when leaf and root are digests and its items lead from the one to the other. */
  lemma {:induction false} AcceptsExactly(cs: Suite, leafHash: Bytes, proof: seq<Bytes>, root: Bytes)
    ensures Accepts(cs, leafHash, proof, root) <==>
              && |leafHash| == 32 && |root| == 32
              && exists hashes :: LeadsThrough(cs, proof, hashes) && hashes[0] == leafHash && hashes[|proof|] == root
  {
    if Accepts(cs, leafHash, proof, root) { var hashes := FoldLeads(cs, leafHash, proof); }
    if hashes :| LeadsThrough(cs, proof, hashes) && hashes[0] == leafHash && hashes[|proof|] == root {
      LeadsFold(cs, proof, hashes);
    }
  }

  // ---- Agreement ----

  /** Both lists have the same entry at the end of the path. */
  predicate SameAt(xs: seq<Digest>, ys: seq<Digest>, path: seq<bool>)
    requires xs != [] && ys != []
  {
    xs[Reached(path, |xs|)] == ys[Reached(path, |ys|)]
  }

  /** Both lists have the same entry at the end of every path of length `h`. */
  ghost predicate AgreeOnPaths(xs: seq<Digest>, ys: seq<Digest>, h: nat)
    requires xs != [] && ys != []
  {
    forall path: seq<bool> :: |path| == h ==> SameAt(xs, ys, path)
  }

  /** One more step down, to a child. */
  lemma StepDown(level: seq<Digest>, path: seq<bool>, right: bool)
    requires level != []
    ensures level[Reached([right] + path, |level|)]
              == At(level, 2 * Reached(path, (|level| + 1) / 2) + if right then 1 else 0)
  {
    var longer := [right] + path;
    assert longer[0] == right && longer[1..] == path;
    var p := 2 * Reached(path, (|level| + 1) / 2) + if right then 1 else 0;
    assert Reached(longer, |level|) == if p < |level| then p else |level| - 1;
  }

  lemma {:induction false} SameChildrenSameParent(cs: Suite, xs: seq<Digest>, ys: seq<Digest>, path: seq<bool>)
    requires xs != [] && ys != [] && SameAt(xs, ys, [false] + path) && SameAt(xs, ys, [true] + path)
    ensures SameAt(NextLevel(cs, xs), NextLevel(cs, ys), path)
  {
    var i, j := Reached(path, (|xs| + 1) / 2), Reached(path, (|ys| + 1) / 2);
    StepDown(xs, path, false);
    StepDown(xs, path, true);
    StepDown(ys, path, false);
    StepDown(ys, path, true);
    assert NextLevel(cs, xs)[i] == ParentAt(cs, xs, i) && NextLevel(cs, ys)[j] == ParentAt(cs, ys, j);
  }

  lemma {:induction false} ChildrenThenParents(cs: Suite, xs: seq<Digest>, ys: seq<Digest>, h: nat)
    requires xs != [] && ys != [] && AgreeOnPaths(xs, ys, h + 1)
    ensures AgreeOnPaths(NextLevel(cs, xs), NextLevel(cs, ys), h)
  {
    forall path: seq<bool> | |path| == h ensures SameAt(NextLevel(cs, xs), NextLevel(cs, ys), path) {
      assert SameAt(xs, ys, [false] + path) && SameAt(xs, ys, [true] + path);
      SameChildrenSameParent(cs, xs, ys, path);
    }
  }

  lemma {:induction false} SameParentsSameChild(cs: Suite, xs: seq<Digest>, ys: seq<Digest>, hashed: set<Bytes>,
                                                path: seq<bool>, right: bool)
    requires xs != [] && ys != [] && !HasCollision(cs, hashed) && LevelWithin(xs, hashed) && LevelWithin(ys, hashed)
    requires SameAt(NextLevel(cs, xs), NextLevel(cs, ys), path)
    ensures SameAt(xs, ys, [right] + path)
  {
    var i, j := Reached(path, (|xs| + 1) / 2), Reached(path, (|ys| + 1) / 2);
    assert NextLevel(cs, xs)[i] == ParentAt(cs, xs, i) && NextLevel(cs, ys)[j] == ParentAt(cs, ys, j);
    assert NodeInput(xs, i) in hashed && NodeInput(ys, j) in hashed;
    Injective(cs, hashed, NodeInput(xs, i), NodeInput(ys, j));
    HalvesEqual(At(xs, 2 * i), At(xs, 2 * i + 1), At(ys, 2 * j), At(ys, 2 * j + 1));
    StepDown(xs, path, right);
    StepDown(ys, path, right);
  }

  lemma {:induction false} ParentsThenChildren(cs: Suite, xs: seq<Digest>, ys: seq<Digest>, hashed: set<Bytes>, h: nat)
    requires xs != [] && ys != [] && !HasCollision(cs, hashed) && LevelWithin(xs, hashed) && LevelWithin(ys, hashed)
    requires AgreeOnPaths(NextLevel(cs, xs), NextLevel(cs, ys), h)
    ensures AgreeOnPaths(xs, ys, h + 1)
  {
    forall path: seq<bool> | |path| == h + 1 ensures SameAt(xs, ys, path) {
      assert SameAt(NextLevel(cs, xs), NextLevel(cs, ys), path[1..]);
      SameParentsSameChild(cs, xs, ys, hashed, path[1..], path[0]);
      assert path == [path[0]] + path[1..];
    }
  }

  lemma {:induction false} LoneLeaves(xs: seq<Digest>, ys: seq<Digest>)
    requires |xs| == 1 && |ys| == 1
    ensures AgreeOnPaths(xs, ys, 0) <==> xs[0] == ys[0]
  {
    assert SameAt(xs, ys, []) <==> xs[0] == ys[0];
  }

  lemma {:induction false} AgreementGivesRoot(cs: Suite, xs: seq<Digest>, ys: seq<Digest>)
    requires xs != [] && ys != [] && Height(|xs|) == Height(|ys|) && AgreeOnPaths(xs, ys, Height(|xs|))
    ensures Root(cs, xs) == Root(cs, ys)
    decreases |xs|
  {
    if |xs| == 1 {
      LoneLeaves(xs, ys);
    } else {
      ChildrenThenParents(cs, xs, ys, Height(|xs|) - 1);
      AgreementGivesRoot(cs, NextLevel(cs, xs), NextLevel(cs, ys));
    }
  }

  lemma {:induction false} RootGivesAgreement(cs: Suite, xs: seq<Digest>, ys: seq<Digest>, hashed: set<Bytes>)
    requires xs != [] && ys != [] && Height(|xs|) == Height(|ys|) && Root(cs, xs) == Root(cs, ys)
    requires !HasCollision(cs, hashed) && TreeWithin(cs, xs, hashed) && TreeWithin(cs, ys, hashed)
    ensures AgreeOnPaths(xs, ys, Height(|xs|))
    decreases |xs|
  {
    if |xs| == 1 {
      LoneLeaves(xs, ys);
    } else {
      RootGivesAgreement(cs, NextLevel(cs, xs), NextLevel(cs, ys), hashed);
      ParentsThenChildren(cs, xs, ys, hashed, Height(|xs|) - 1);
    }
  }

  /**
   Which leaf lists share a root, for any two lists, the higher tree second: exactly those where every path from the
   root leads to the same digest in both, down to the first list's leaves and the second tree's level at the same depth,
   unless two of the node inputs hashed for the two trees collide.
   */
  lemma {:induction false} RootsAgreeExactly(cs: Suite, xs: seq<Digest>, ys: seq<Digest>, d: nat)
    requires xs != [] && ys != [] && Height(|xs|) + d == Height(|ys|)
    ensures AgreeOnPaths(xs, LevelAt(cs, ys, d), Height(|xs|)) ==> Root(cs, xs) == Root(cs, ys)
    ensures Root(cs, xs) == Root(cs, ys) ==>
              || AgreeOnPaths(xs, LevelAt(cs, ys, d), Height(|xs|))
              || HasCollision(cs, TreeInputs(cs, xs) + TreeInputs(cs, ys))
  {
    LevelHeight(cs, ys, d);
    LevelRoot(cs, ys, d);
    if AgreeOnPaths(xs, LevelAt(cs, ys, d), Height(|xs|)) {
      AgreementGivesRoot(cs, xs, LevelAt(cs, ys, d));
    } else if Root(cs, xs) == Root(cs, ys) {
      var hashed := TreeInputs(cs, xs) + TreeInputs(cs, ys);
      if !HasCollision(cs, hashed) { DisagreementCollides(cs, xs, ys, d, hashed); }
    }
  }

  lemma {:induction false} DisagreementCollides(cs: Suite, xs: seq<Digest>, ys: seq<Digest>, d: nat, hashed: set<Bytes>)
    requires xs != [] && ys != [] && Height(|xs|) + d == Height(|ys|) && Root(cs, xs) == Root(cs, ys)
    requires !HasCollision(cs, hashed) && TreeInputs(cs, xs) <= hashed && TreeInputs(cs, ys) <= hashed
    ensures AgreeOnPaths(xs, LevelAt(cs, ys, d), Height(|xs|))
  {
    LevelHeight(cs, ys, d);
    LevelRoot(cs, ys, d);
    InputsWithin(cs, xs, hashed);
    InputsWithin(cs, ys, hashed);
    WithinBelow(cs, ys, d, hashed);
    RootGivesAgreement(cs, xs, LevelAt(cs, ys, d), hashed);
  }
}
