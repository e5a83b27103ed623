/**
 The Merkle root of a ledger pins its whole history. The tree alone would not do: `[a, b, c]` and `[a, b, c, c]`
 have one root. Chaining leaves through `prev_hash` makes them distinct, which rules the padding out.
 */
module HistoryBinding {
  import opened Crypto
  import opened LedgerCore
  import opened Merkle
  import opened MerkleSoundness

  /** The root of the ledger that `append` builds from `contents`. */
  function HistoryRoot(cs: Suite, contents: seq<Json>): Digest
    requires contents != []
  {
    Root(cs, ChainLeaves(cs, contents))
  }

  /** Everything hashed while building that ledger and its tree. */
  function HistoryInputs(cs: Suite, contents: seq<Json>): set<Bytes>
    requires contents != []
  {
    ChainInputs(cs, contents) + TreeInputs(cs, ChainLeaves(cs, contents))
  }

  /** The two digests hashed into the root of a ledger of at least two entries. */
  function RootInput(cs: Suite, contents: seq<Json>): Bytes
    requires |contents| > 1
  {
    var leaves := ChainLeaves(cs, contents);
    NodeInput(LevelAt(cs, leaves, Height(|leaves|) - 1), 0)
  }

  /** The one way two histories can share a root without a collision: one is a single entry whose canonical
      encoding is, byte for byte, the two digests under the other's root. */
  predicate LoneEntryMimics(cs: Suite, a: seq<Json>, b: seq<Json>) {
    |a| == 1 && |b| > 1 && LeafBytes(cs, a[0], []) == RootInput(cs, b)
  }

  lemma ChainIsDistinct(cs: Suite, contents: seq<Json>, hashed: set<Bytes>)
    requires JcsLaws(cs) && !HasCollision(cs, hashed) && ChainInputs(cs, contents) <= hashed
    ensures Distinct(ChainLeaves(cs, contents))
  {
    forall i: nat, j: nat | i < j < |contents| ensures DifferAt(ChainLeaves(cs, contents), i, j) {
      ChainLeavesDistinct(cs, contents, hashed, i, j);
    }
  }

  lemma {:induction false} LeafIsHashed(cs: Suite, contents: seq<Json>, i: nat)
    requires i < |contents|
    ensures LeafBytes(cs, contents[i], PrevOf(cs, contents, i)) in ChainInputs(cs, contents)
    ensures ChainLeaves(cs, contents)[i] == cs.sha3(LeafBytes(cs, contents[i], PrevOf(cs, contents, i)))
  {
  }

  /** The tree with padding is ambiguous: repeating an odd last leaf never changes the root. */
  lemma PaddingIsInvisible(cs: Suite, leaves: seq<Digest>)
    requires |leaves| > 1 && |leaves| % 2 == 1
    ensures Root(cs, leaves + [leaves[|leaves| - 1]]) == Root(cs, leaves)
  {
    var doubled := leaves + [leaves[|leaves| - 1]];
    forall i | 0 <= i < |NextLevel(cs, leaves)| ensures ParentAt(cs, leaves, i) == ParentAt(cs, doubled, i) {
      assert At(leaves, 2 * i) == At(doubled, 2 * i) && At(leaves, 2 * i + 1) == At(doubled, 2 * i + 1);
    }
    assert NextLevel(cs, leaves) == NextLevel(cs, doubled);
  }

  /** The leaves of the lower ledger are an inner level of the higher one's tree. */
  lemma {:induction false} LowerLevel(cs: Suite, a: seq<Json>, b: seq<Json>, d: nat, hashed: set<Bytes>)
    requires JcsLaws(cs) && a != [] && b != [] && Height(|a|) + d == Height(|b|)
    requires !HasCollision(cs, hashed) && HistoryInputs(cs, a) <= hashed && HistoryInputs(cs, b) <= hashed
    requires HistoryRoot(cs, a) == HistoryRoot(cs, b)
    ensures ChainLeaves(cs, a) == LevelAt(cs, ChainLeaves(cs, b), d) && TreeWithin(cs, ChainLeaves(cs, b), hashed)
  {
    ChainIsDistinct(cs, a, hashed);
    ChainIsDistinct(cs, b, hashed);
    InputsWithin(cs, ChainLeaves(cs, a), hashed);
    InputsWithin(cs, ChainLeaves(cs, b), hashed);
    DifferentHeightBinding(cs, ChainLeaves(cs, a), ChainLeaves(cs, b), d, hashed);
  }

  /** A leaf of the lower ledger that is also an inner node is encoded in exactly the two digests under that node. */
  lemma {:induction false} LeafIsInner(cs: Suite, a: seq<Json>, ys: seq<Digest>, d: nat, i: nat, hashed: set<Bytes>)
    requires ys != [] && 0 < d <= Height(|ys|) && i < |a| && ChainLeaves(cs, a) == LevelAt(cs, ys, d)
    requires !HasCollision(cs, hashed) && ChainInputs(cs, a) <= hashed && TreeWithin(cs, ys, hashed)
    ensures LeafBytes(cs, a[i], PrevOf(cs, a, i)) == NodeInput(LevelAt(cs, ys, d - 1), i)
  {
    var input := InnerNode(cs, ys, d, i, hashed);
    LeafIsHashed(cs, a, i);
    Injective(cs, hashed, LeafBytes(cs, a[i], PrevOf(cs, a, i)), input);
  }

  /** Two digests are too short for the encoding of an entry with a predecessor, so that leaf is the only one. */
  lemma {:induction false} OneLeaf(cs: Suite, a: seq<Json>, ys: seq<Digest>, d: nat, hashed: set<Bytes>)
    requires JcsLaws(cs) && a != [] && ys != [] && 0 < d <= Height(|ys|) && ChainLeaves(cs, a) == LevelAt(cs, ys, d)
    requires !HasCollision(cs, hashed) && ChainInputs(cs, a) <= hashed && TreeWithin(cs, ys, hashed)
    ensures |a| == 1 && LeafBytes(cs, a[0], []) == NodeInput(LevelAt(cs, ys, d - 1), 0)
  {
    LeafIsInner(cs, a, ys, d, 0, hashed);
    if |a| > 1 {
      LeafIsInner(cs, a, ys, d, 1, hashed);
      LongLeaf(cs, a[1], PrevOf(cs, a, 1));
    }
  }

  lemma {:induction false} LoneMimics(cs: Suite, a: seq<Json>, b: seq<Json>, d: nat)
    requires |a| == 1 && |b| > 1 && d == Height(|b|)
    requires LeafBytes(cs, a[0], []) == NodeInput(LevelAt(cs, ChainLeaves(cs, b), d - 1), 0)
    ensures LoneEntryMimics(cs, a, b)
  {
  }

  lemma {:induction false} LowerTree(cs: Suite, a: seq<Json>, b: seq<Json>, d: nat, hashed: set<Bytes>)
    requires JcsLaws(cs) && a != [] && b != [] && Height(|a|) + d == Height(|b|) && d > 0
    requires !HasCollision(cs, hashed) && HistoryInputs(cs, a) <= hashed && HistoryInputs(cs, b) <= hashed
    requires HistoryRoot(cs, a) == HistoryRoot(cs, b)
    ensures LoneEntryMimics(cs, a, b)
  {
    LowerLevel(cs, a, b, d, hashed);
    OneLeaf(cs, a, ChainLeaves(cs, b), d, hashed);
    LoneMimics(cs, a, b, d);
  }

  /** Ledgers built by `append` with equal roots have equal histories. */
  lemma HistoryIsBound(cs: Suite, a: seq<Json>, b: seq<Json>)
    requires JcsLaws(cs) && a != [] && b != []
    requires HistoryRoot(cs, a) == HistoryRoot(cs, b)
    ensures || a == b
            || LoneEntryMimics(cs, a, b) || LoneEntryMimics(cs, b, a)
            || HasCollision(cs, HistoryInputs(cs, a) + HistoryInputs(cs, b))
  {
    var hashed := HistoryInputs(cs, a) + HistoryInputs(cs, b);
    if !HasCollision(cs, hashed) {
      if Height(|a|) < Height(|b|) {
        LowerTree(cs, a, b, Height(|b|) - Height(|a|), hashed);
      } else if Height(|b|) < Height(|a|) {
        LowerTree(cs, b, a, Height(|a|) - Height(|b|), hashed);
      } else {
        ChainIsDistinct(cs, a, hashed);
        ChainIsDistinct(cs, b, hashed);
        InputsWithin(cs, ChainLeaves(cs, a), hashed);
        InputsWithin(cs, ChainLeaves(cs, b), hashed);
        SameHeightBinding(cs, ChainLeaves(cs, a), ChainLeaves(cs, b), hashed);
        EqualLeavesEqualContents(cs, a, b, hashed);
      }
    }
  }

  // ---- Proofs against a ledger's root ----

  /** The stated leaf is `contents[i]` with the predecessor it really has. */
  predicate IsEntry(cs: Suite, contents: seq<Json>, content: Json, prev: Bytes, i: nat) {
    i < |contents| && content == contents[i] && prev == PrevOf(cs, contents, i)
  }

  /** Everything hashed by the ledger, the claimant's leaf and the proof check. */
  function ProofInputs(cs: Suite, contents: seq<Json>, content: Json, prev: Bytes, proof: seq<Bytes>): set<Bytes>
    requires contents != []
  {
    HistoryInputs(cs, contents) + {LeafBytes(cs, content, prev)} + FoldInputs(cs, LeafHash(cs, content, prev), proof)
  }

  /**
   A verifier who recomputes the leaf hash from content and a 32-byte predecessor needs no check of the proof's
   length: acceptance, at any length, means the entry is in the ledger, or there is a collision, or the ledger's
   first entry encodes to exactly 64 bytes.
   */
  lemma ChainedEntryProofSound(cs: Suite, contents: seq<Json>, content: Json, prev: Bytes, proof: seq<Bytes>)
    requires JcsLaws(cs) && contents != [] && |prev| == 32
    requires Accepts(cs, LeafHash(cs, content, prev), proof, HistoryRoot(cs, contents))
    ensures || (exists i :: IsEntry(cs, contents, content, prev, i))
            || |LeafBytes(cs, contents[0], [])| == 64
            || HasCollision(cs, ProofInputs(cs, contents, content, prev, proof))
  {
    var hashed := ProofInputs(cs, contents, content, prev, proof);
    var leaves, leaf := ChainLeaves(cs, contents), LeafHash(cs, content, prev);
    InputsWithin(cs, leaves, hashed);
    if HasCollision(cs, hashed) {
    } else if |proof| < Height(|leaves|) {
      var input := ShortProof(cs, leaves, leaf, proof, hashed);
      LongLeaf(cs, content, prev);
      Injective(cs, hashed, LeafBytes(cs, content, prev), input);
    } else {
      var j := |proof| - Height(|leaves|);
      FoldItems(cs, leaf, proof);
      FoldSplit(cs, leaf, proof, j);
      var reached := Fold(cs, leaf, proof[..j]).value;
      FullProofSound(cs, leaves, reached, proof[j..], hashed);
      var p := Spelled(proof[j..], |leaves|);
      var leafBytes := LeafBytes(cs, contents[p], PrevOf(cs, contents, p));
      assert leafBytes in ChainInputs(cs, contents) && leaves[p] == cs.sha3(leafBytes);
      if j == 0 {
        LeafBinding(cs, content, prev, contents[p], PrevOf(cs, contents, p), hashed);
        assert IsEntry(cs, contents, content, prev, p);
      } else {
        var input := FoldEndsInNode(cs, leaf, proof[..j]);
        Injective(cs, hashed, leafBytes, input);
        if p > 0 { LongLeaf(cs, contents[p], PrevOf(cs, contents, p)); }
      }
    }
  }
}
