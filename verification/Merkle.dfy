/** Ordered Merkle trees over ledger leaves, and proofs of inclusion (ledger_core/merkle.py). */
module Merkle {
  import opened Prelude
  import opened Crypto
  import opened LedgerCore

  const LEFT_SIBLING: Bytes := [0]
  const RIGHT_SIBLING: Bytes := [1]
  const HASH_SIZE := 32

  datatype MerkleError = NoEntries | DuplicateEntryId(id: int) | BadLeafLength | NotInTree(id: int)

  function ParentHash(cs: Suite, left: Digest, right: Digest): Digest {
    cs.sha3(left + right)
  }

  // ---- One level and the next ----

  /** Node `i` of a level whose last node stands in for any beyond it: the padding of an odd level. */
  function At(level: seq<Digest>, i: nat): Digest
    requires level != []
  {
    if i < |level| then level[i] else level[|level| - 1]
  }

  /** Node `i` of the level above. */
  function ParentAt(cs: Suite, level: seq<Digest>, i: nat): Digest
    requires level != []
  {
    ParentHash(cs, At(level, 2 * i), At(level, 2 * i + 1))
  }

  function NextLevel(cs: Suite, level: seq<Digest>): (next: seq<Digest>)
    requires level != []
    ensures |next| == (|level| + 1) / 2
  {
    seq((|level| + 1) / 2, i requires 0 <= i => ParentAt(cs, level, i))
  }

  /** Level `d` of the tree over `leaves`, counted from the leaves. */
  function LevelAt(cs: Suite, leaves: seq<Digest>, d: nat): (level: seq<Digest>)
    requires leaves != []
    ensures level != []
  {
    if d == 0 then leaves else NextLevel(cs, LevelAt(cs, leaves, d - 1))
  }

  function Levels(cs: Suite, leaves: seq<Digest>): (levels: seq<seq<Digest>>)
    requires leaves != []
    ensures |levels| == Height(|leaves|) + 1
  {
    seq(Height(|leaves|) + 1, d requires 0 <= d => LevelAt(cs, leaves, d))
  }

  function Root(cs: Suite, leaves: seq<Digest>): Digest
    requires leaves != []
    decreases |leaves|
  {
    if |leaves| == 1 then leaves[0] else Root(cs, NextLevel(cs, leaves))
  }

  /** The number of halvings (rounding up) that take `n` nodes to one. */
  function Height(n: nat): nat {
    if n <= 1 then 0 else 1 + Height((n + 1) / 2)
  }

  function Pow2(n: nat): nat {
    if n == 0 then 1 else 2 * Pow2(n - 1)
  }

  /** `Height(n)` is the base-2 logarithm of `n`, rounded up. */
  lemma {:induction false} HeightIsCeilLog(n: nat)
    requires n >= 1
    ensures n <= Pow2(Height(n))
    ensures n > 1 ==> Pow2(Height(n) - 1) < n
  {
    if n > 1 {
      HeightIsCeilLog((n + 1) / 2);
      if (n + 1) / 2 > 1 {
        assert Pow2(Height(n) - 1) == 2 * Pow2(Height(n) - 2);
      }
    }
  }

  lemma {:induction false} LevelAtShift(cs: Suite, leaves: seq<Digest>, d: nat)
    requires leaves != []
    ensures LevelAt(cs, NextLevel(cs, leaves), d) == LevelAt(cs, leaves, d + 1)
  {
    if d > 0 { LevelAtShift(cs, leaves, d - 1); }
  }

  lemma {:induction false} HeightStep(cs: Suite, level: seq<Digest>)
    requires level != [] && Height(|level|) > 0
    ensures |level| > 1 && Height(|NextLevel(cs, level)|) == Height(|level|) - 1
  {
  }

  lemma {:induction false} LevelHeight(cs: Suite, leaves: seq<Digest>, d: nat)
    requires leaves != [] && d <= Height(|leaves|)
    ensures Height(|LevelAt(cs, leaves, d)|) == Height(|leaves|) - d
  {
    if d > 0 {
      LevelHeight(cs, leaves, d - 1);
      HeightStep(cs, LevelAt(cs, leaves, d - 1));
    }
  }

  /** Every level of a tree is the leaves of a tree with the same root. */
  lemma {:induction false} LevelRoot(cs: Suite, leaves: seq<Digest>, d: nat)
    requires leaves != [] && d <= Height(|leaves|)
    ensures Root(cs, LevelAt(cs, leaves, d)) == Root(cs, leaves)
  {
    if d > 0 {
      LevelRoot(cs, leaves, d - 1);
      LevelHeight(cs, leaves, d - 1);
      HeightStep(cs, LevelAt(cs, leaves, d - 1));
    }
  }

  predicate HalvesAt(levels: seq<seq<Digest>>, i: nat)
    requires i + 1 < |levels|
  {
    levels[i] != [] && |levels[i + 1]| == (|levels[i]| + 1) / 2
  }

  /** The levels of a tree: each half as long as the one below, rounding up, down to a single root. */
  predicate Shaped(levels: seq<seq<Digest>>) {
    && levels != []
    && |levels[|levels| - 1]| == 1
    && forall i {:trigger HalvesAt(levels, i)} :: 0 <= i < |levels| - 1 ==> HalvesAt(levels, i)
  }

  lemma LevelsShape(cs: Suite, leaves: seq<Digest>)
    requires leaves != []
    ensures Shaped(Levels(cs, leaves))
    ensures Levels(cs, leaves)[Height(|leaves|)] == [Root(cs, leaves)]
  {
    var levels := Levels(cs, leaves);
    LevelHeight(cs, leaves, Height(|leaves|));
    LevelRoot(cs, leaves, Height(|leaves|));
    forall i | 0 <= i < |levels| - 1 ensures HalvesAt(levels, i) {
      LevelHeight(cs, leaves, i);
    }
  }

  // ---- Proofs ----

  /** The proof item that takes node `p` of `level` to its parent. */
  function ProofItem(level: seq<Digest>, p: nat): (item: Bytes)
    requires p < |level|
    ensures |item| == HASH_SIZE + 1
  {
    if p % 2 == 0 then RIGHT_SIBLING + level[if p + 1 < |level| then p + 1 else p]
    else LEFT_SIBLING + level[p - 1]
  }

  /** The proof of node `p` of level `i`. */
  function ProofAlong(levels: seq<seq<Digest>>, i: nat, p: nat): seq<Bytes>
    requires Shaped(levels) && i < |levels| && p < |levels[i]|
    decreases |levels| - i
  {
    if i == |levels| - 1 then [] else
      assert HalvesAt(levels, i);
      [ProofItem(levels[i], p)] + ProofAlong(levels, i + 1, p / 2)
  }

  function ProofStep(cs: Suite, hash: Digest, item: Bytes): Option<Digest> {
    if |item| != HASH_SIZE + 1 then None
    else if item[..1] == LEFT_SIBLING then Some(ParentHash(cs, item[1..], hash))
    else if item[..1] == RIGHT_SIBLING then Some(ParentHash(cs, hash, item[1..]))
    else None
  }

  function Fold(cs: Suite, hash: Digest, proof: seq<Bytes>): Option<Digest>
    decreases |proof|
  {
    if proof == [] then Some(hash)
    else match ProofStep(cs, hash, proof[0])
      case None => None
      case Some(parent) => Fold(cs, parent, proof[1..])
  }

  predicate Accepts(cs: Suite, leafHash: Bytes, proof: seq<Bytes>, root: Bytes) {
    |leafHash| == HASH_SIZE && |root| == HASH_SIZE && Fold(cs, leafHash, proof) == Some(root)
  }

  method VerifyMerkleProof(cs: Suite, leafHash: Bytes, proof: seq<Bytes>, root: Bytes) returns (ok: bool)
    ensures ok <==> Accepts(cs, leafHash, proof, root)
  {
    if |leafHash| != HASH_SIZE || |root| != HASH_SIZE { return false; }
    var currentHash: Digest := leafHash;
    for i := 0 to |proof|
      invariant Fold(cs, currentHash, proof[i..]) == Fold(cs, leafHash, proof)
    {
      var item := proof[i];
      assert proof[i..][0] == item && proof[i..][1..] == proof[i + 1..];
      if |item| != HASH_SIZE + 1 { return false; }
      var direction, siblingHash := item[..1], item[1..];
      if direction == LEFT_SIBLING {
        currentHash := ParentHash(cs, siblingHash, currentHash);
      } else if direction == RIGHT_SIBLING {
        currentHash := ParentHash(cs, currentHash, siblingHash);
      } else {
        return false;
      }
    }
    return currentHash == root;
  }

  // ---- Trees ----

  datatype MerkleTree = MerkleTree(levels: seq<seq<Digest>>, entryPositions: map<int, nat>) {
    predicate WellFormed() {
      && Shaped(levels)
      && forall id :: id in entryPositions ==> entryPositions[id] < |levels[0]|
    }

    function RootHash(): Digest
      requires WellFormed()
    {
      levels[|levels| - 1][0]
    }

    method GetProof(entryId: int) returns (r: Result<seq<Bytes>, MerkleError>)
      requires WellFormed()
      ensures r == if entryId in entryPositions then Success(ProofAlong(levels, 0, entryPositions[entryId]))
                   else Failure(NotInTree(entryId))
    {
      if entryId !in entryPositions { return Failure(NotInTree(entryId)); }
      var index: nat := entryPositions[entryId];
      var proof: seq<Bytes> := [];
      for i := 0 to |levels| - 1
        invariant index < |levels[i]|
        invariant proof + ProofAlong(levels, i, index) == ProofAlong(levels, 0, entryPositions[entryId])
      {
        var level := levels[i];
        var siblingIndex: nat;
        var direction;
        if index % 2 == 0 {
          siblingIndex, direction := if index + 1 < |level| then index + 1 else index, RIGHT_SIBLING;
        } else {
          siblingIndex, direction := index - 1, LEFT_SIBLING;
        }
        assert HalvesAt(levels, i);
        proof := proof + [direction + level[siblingIndex]];
        index := index / 2;
      }
      var last: nat := |levels| - 1;
      assert proof + ProofAlong(levels, last, index) == proof;
      return Success(proof);
    }
  }

  function LeafHashes(entries: seq<LedgerEntry>): (ls: seq<Digest>)
    requires forall i :: 0 <= i < |entries| ==> |entries[i].leafHash| == HASH_SIZE
    ensures |ls| == |entries|
  {
    seq(|entries|, i requires 0 <= i < |entries| => entries[i].leafHash)
  }

  predicate SeenBefore(entries: seq<LedgerEntry>, i: nat)
    requires i < |entries|
  {
    exists k :: 0 <= k < i && entries[k].entryId == entries[i].entryId
  }

  /** The first reason, in entry order, not to build a tree. */
  function FirstFault(entries: seq<LedgerEntry>, i: nat := 0): (f: Option<MerkleError>)
    requires i <= |entries|
    ensures f.None? ==> forall j :: i <= j < |entries| ==> |entries[j].leafHash| == HASH_SIZE
    decreases |entries| - i
  {
    if i == |entries| then None
    else if SeenBefore(entries, i) then Some(DuplicateEntryId(entries[i].entryId))
    else if |entries[i].leafHash| != HASH_SIZE then Some(BadLeafLength)
    else FirstFault(entries, i + 1)
  }

  function Positions(entries: seq<LedgerEntry>): map<int, nat> {
    if entries == [] then map[]
    else
      var n := |entries| - 1;
      Positions(entries[..n])[entries[n].entryId := n]
  }

  lemma {:induction false} PositionsIndex(entries: seq<LedgerEntry>)
    ensures forall id :: id in Positions(entries) <==> exists i :: 0 <= i < |entries| && entries[i].entryId == id
    ensures forall id :: id in Positions(entries) ==>
              Positions(entries)[id] < |entries| && entries[Positions(entries)[id]].entryId == id
  {
    if entries != [] {
      var n := |entries| - 1;
      PositionsIndex(entries[..n]);
      assert entries == entries[..n] + [entries[n]];
    }
  }

  /** The tree `build_merkle_tree` promises for `entries`, or the error it raises. */
  function TreeOf(cs: Suite, entries: seq<LedgerEntry>): Result<MerkleTree, MerkleError> {
    if entries == [] then Failure(NoEntries)
    else match FirstFault(entries)
      case Some(fault) => Failure(fault)
      case None => Success(MerkleTree(Levels(cs, LeafHashes(entries)), Positions(entries)))
  }

  lemma {:induction false} FaultFound(entries: seq<LedgerEntry>, i: nat)
    requires i <= |entries| && FirstFault(entries, i).Some?
    ensures (exists j :: 0 <= j < |entries| && |entries[j].leafHash| != HASH_SIZE)
            || (exists j, k :: 0 <= j < k < |entries| && entries[j].entryId == entries[k].entryId)
    decreases |entries| - i
  {
    if !SeenBefore(entries, i) && |entries[i].leafHash| == HASH_SIZE { FaultFound(entries, i + 1); }
  }

  lemma {:induction false} DistinctIds(entries: seq<LedgerEntry>, i: nat)
    requires i <= |entries| && FirstFault(entries, i).None?
    ensures forall j, k :: 0 <= k < j < |entries| && i <= j ==> entries[k].entryId != entries[j].entryId
    decreases |entries| - i
  {
    if i < |entries| { DistinctIds(entries, i + 1); }
  }

  /** A tree is built exactly for non-empty lists of entries with 32-byte leaf hashes and distinct ids. */
  lemma {:induction false} BuildsExactly(cs: Suite, entries: seq<LedgerEntry>)
    ensures TreeOf(cs, entries).Success? <==>
              && entries != []
              && (forall j :: 0 <= j < |entries| ==> |entries[j].leafHash| == HASH_SIZE)
              && (forall j, k :: 0 <= j < k < |entries| ==> entries[j].entryId != entries[k].entryId)
  {
    if FirstFault(entries).Some? { FaultFound(entries, 0); } else { DistinctIds(entries, 0); }
  }

  /** Entry `j` cannot be a leaf: an earlier one has its id, or its hash is no digest. */
  predicate Faulty(entries: seq<LedgerEntry>, j: nat, e: MerkleError) {
    && j < |entries|
    && if exists k :: 0 <= k < j && entries[k].entryId == entries[j].entryId
       then e == DuplicateEntryId(entries[j].entryId)
       else |entries[j].leafHash| != 32 && e == BadLeafLength
  }

  predicate FirstFaulty(entries: seq<LedgerEntry>, j: nat, e: MerkleError) {
    Faulty(entries, j, e) && forall k :: 0 <= k < j ==>
      !Faulty(entries, k, DuplicateEntryId(entries[k].entryId)) && !Faulty(entries, k, BadLeafLength)
  }

  lemma {:induction false} FaultIsFirst(entries: seq<LedgerEntry>, i: nat) returns (j: nat)
    requires i <= |entries| && FirstFault(entries, i).Some?
    requires forall k :: 0 <= k < i ==>
               !Faulty(entries, k, DuplicateEntryId(entries[k].entryId)) && !Faulty(entries, k, BadLeafLength)
    ensures FirstFaulty(entries, j, FirstFault(entries, i).value)
    decreases |entries| - i
  {
    if SeenBefore(entries, i) || |entries[i].leafHash| != HASH_SIZE {
      j := i;
    } else {
      j := FaultIsFirst(entries, i + 1);
    }
  }

  /** Why a tree is not built: there are no entries, or the first entry that cannot be a leaf. */
  lemma {:induction false} RefusesTreeExactly(cs: Suite, entries: seq<LedgerEntry>, e: MerkleError)
    ensures TreeOf(cs, entries) == Failure(e) <==>
              if entries == [] then e == NoEntries else exists j :: FirstFaulty(entries, j, e)
  {
    BuildsExactly(cs, entries);
    if entries != [] && FirstFault(entries).Some? {
      var j := FaultIsFirst(entries, 0);
      forall k, d | FirstFaulty(entries, k, d) ensures k == j && d == FirstFault(entries).value {
        assert Faulty(entries, k, d) && Faulty(entries, j, FirstFault(entries).value);
      }
    }
  }

  lemma TreeOfWellFormed(cs: Suite, entries: seq<LedgerEntry>)
    requires TreeOf(cs, entries).Success?
    ensures var t := TreeOf(cs, entries).value;
            t.WellFormed() && t.RootHash() == Root(cs, LeafHashes(entries))
    ensures forall i :: 0 <= i < |entries| ==>
              entries[i].entryId in TreeOf(cs, entries).value.entryPositions &&
              TreeOf(cs, entries).value.entryPositions[entries[i].entryId] == i
  {
    DistinctIds(entries, 0);
    PositionsIndex(entries);
    LevelsShape(cs, LeafHashes(entries));
  }

  lemma FaultStep(entries: seq<LedgerEntry>, i: nat)
    requires i < |entries|
    ensures Positions(entries[..i + 1]) == Positions(entries[..i])[entries[i].entryId := i]
    ensures FirstFault(entries, i) ==
            if entries[i].entryId in Positions(entries[..i]) then Some(DuplicateEntryId(entries[i].entryId))
            else if |entries[i].leafHash| != HASH_SIZE then Some(BadLeafLength) else FirstFault(entries, i + 1)
  {
    PositionsIndex(entries[..i]);
    assert forall k :: 0 <= k < i ==> entries[..i][k] == entries[k];
    assert entries[..i + 1][..i] == entries[..i];
  }

  /** The scan over entries: leaf hashes in order, and where each entry id sits. */
  method IndexLeaves(entries: seq<LedgerEntry>)
    returns (fault: Option<MerkleError>, leaves: seq<Digest>, entryPositions: map<int, nat>)
    ensures fault == FirstFault(entries)
    ensures fault.None? ==> leaves == LeafHashes(entries) && entryPositions == Positions(entries)
  {
    entryPositions, leaves := map[], [];
    for position := 0 to |entries|
      invariant entryPositions == Positions(entries[..position])
      invariant |leaves| == position
      invariant forall j :: 0 <= j < position ==> |entries[j].leafHash| == HASH_SIZE && leaves[j] == entries[j].leafHash
      invariant FirstFault(entries, position) == FirstFault(entries)
    {
      var entry := entries[position];
      FaultStep(entries, position);
      if entry.entryId in entryPositions { return Some(DuplicateEntryId(entry.entryId)), [], map[]; }
      if |entry.leafHash| != HASH_SIZE { return Some(BadLeafLength), [], map[]; }
      entryPositions := entryPositions[entry.entryId := position];
      leaves := leaves + [entry.leafHash];
    }
    assert entries[..|entries|] == entries;
    fault := None;
  }

  method BuildNextLevel(cs: Suite, currentLevel: seq<Digest>) returns (nextLevel: seq<Digest>)
    requires currentLevel != []
    ensures nextLevel == NextLevel(cs, currentLevel)
  {
    var paddedLevel := if |currentLevel| % 2 == 0 then currentLevel
                       else currentLevel + [currentLevel[|currentLevel| - 1]];
    assert forall i :: 0 <= i < |paddedLevel| ==> paddedLevel[i] == At(currentLevel, i);
    nextLevel := [];
    for i := 0 to |paddedLevel| / 2
      invariant |nextLevel| == i
      invariant forall j :: 0 <= j < i ==> nextLevel[j] == ParentAt(cs, currentLevel, j)
    {
      nextLevel := nextLevel + [ParentHash(cs, paddedLevel[2 * i], paddedLevel[2 * i + 1])];
    }
  }

  method BuildMerkleTree(cs: Suite, entries: seq<LedgerEntry>) returns (r: Result<MerkleTree, MerkleError>)
    ensures r == TreeOf(cs, entries)
    ensures r.Success? ==> r.value.WellFormed()
  {
    if entries == [] { return Failure(NoEntries); }
    var fault, leaves, entryPositions := IndexLeaves(entries);
    if fault.Some? { return Failure(fault.value); }
    var levels := BuildLevels(cs, leaves);
    TreeOfWellFormed(cs, entries);
    return Success(MerkleTree(levels, entryPositions));
  }

  method BuildLevels(cs: Suite, leaves: seq<Digest>) returns (levels: seq<seq<Digest>>)
    requires leaves != []
    ensures levels == Levels(cs, leaves)
  {
    levels := [leaves];
    var currentLevel := leaves;
    while |currentLevel| > 1
      invariant levels != [] && currentLevel == levels[|levels| - 1] && currentLevel != []
      invariant forall d :: 0 <= d < |levels| ==> levels[d] == LevelAt(cs, leaves, d)
      invariant Height(|currentLevel|) + |levels| == Height(|leaves|) + 1
      decreases |currentLevel|
    {
      currentLevel := BuildNextLevel(cs, currentLevel);
      levels := levels + [currentLevel];
    }
  }

  // ---- Completeness ----

  /** The number a proof's direction bytes spell, low bit first: a left sibling is a one. */
  function SpelledBits(proof: seq<Bytes>): nat
    requires forall i :: 0 <= i < |proof| ==> proof[i] != []
  {
    if proof == [] then 0
    else (if proof[0][..1] == LEFT_SIBLING then 1 else 0) + 2 * SpelledBits(proof[1..])
  }

  /** The proof of leaf `p`, following the tree rather than a table of its levels. */
  function ProofOf(cs: Suite, leaves: seq<Digest>, p: nat): (proof: seq<Bytes>)
    requires p < |leaves|
    ensures |proof| == Height(|leaves|)
    ensures forall i :: 0 <= i < |proof| ==> |proof[i]| == HASH_SIZE + 1
    decreases |leaves|
  {
    if |leaves| == 1 then [] else [ProofItem(leaves, p)] + ProofOf(cs, NextLevel(cs, leaves), p / 2)
  }

  lemma {:induction false} ProofAlongLevels(cs: Suite, leaves: seq<Digest>, i: nat, p: nat)
    requires leaves != [] && i <= Height(|leaves|) && p < |LevelAt(cs, leaves, i)|
    requires Shaped(Levels(cs, leaves))
    ensures ProofAlong(Levels(cs, leaves), i, p) == ProofOf(cs, LevelAt(cs, leaves, i), p)
    decreases Height(|leaves|) - i
  {
    LevelHeight(cs, leaves, i);
    if i < Height(|leaves|) {
      var level := LevelAt(cs, leaves, i);
      assert LevelAt(cs, leaves, i + 1) == NextLevel(cs, level);
      ProofAlongLevels(cs, leaves, i + 1, p / 2);
      assert ProofOf(cs, level, p) == [ProofItem(level, p)] + ProofOf(cs, NextLevel(cs, level), p / 2);
      assert HalvesAt(Levels(cs, leaves), i);
    }
  }

  /** Every generated proof leads from its leaf to the root and spells the leaf's position. */
  lemma {:induction false} ProofComplete(cs: Suite, leaves: seq<Digest>, p: nat)
    requires p < |leaves|
    ensures Fold(cs, leaves[p], ProofOf(cs, leaves, p)) == Some(Root(cs, leaves))
    ensures SpelledBits(ProofOf(cs, leaves, p)) == p
    decreases |leaves|
  {
    if |leaves| > 1 {
      var next := NextLevel(cs, leaves);
      ProofComplete(cs, next, p / 2);
      assert ProofOf(cs, leaves, p)[1..] == ProofOf(cs, next, p / 2);
      ProofItemStep(cs, leaves, p);
    }
  }

  lemma ProofItemStep(cs: Suite, level: seq<Digest>, p: nat)
    requires p < |level|
    ensures ProofStep(cs, level[p], ProofItem(level, p)) == Some(NextLevel(cs, level)[p / 2])
    ensures ProofItem(level, p)[..1] == if p % 2 == 1 then LEFT_SIBLING else RIGHT_SIBLING
  {
    var item := ProofItem(level, p);
    assert item[1..] == level[if p % 2 == 1 then p - 1 else if p + 1 < |level| then p + 1 else p];
    assert p == 2 * (p / 2) + p % 2;
  }

  /** `get_proof` then `verify_merkle_proof` succeeds for every entry of every buildable list. */
  lemma EntryProofVerifies(cs: Suite, entries: seq<LedgerEntry>, i: nat)
    requires i < |entries| && TreeOf(cs, entries).Success?
    ensures var t := TreeOf(cs, entries).value;
            && t.WellFormed()
            && entries[i].entryId in t.entryPositions
            && var proof := ProofAlong(t.levels, 0, t.entryPositions[entries[i].entryId]);
               && Accepts(cs, entries[i].leafHash, proof, t.RootHash())
               && |entries| <= Pow2(|proof|) && (|entries| > 1 ==> Pow2(|proof| - 1) < |entries|)
               && (forall j :: 0 <= j < |proof| ==> |proof[j]| == HASH_SIZE + 1)
               && SpelledBits(proof) == i
  {
    TreeOfWellFormed(cs, entries);
    ProofAlongLevels(cs, LeafHashes(entries), 0, i);
    ProofComplete(cs, LeafHashes(entries), i);
    HeightIsCeilLog(|entries|);
  }
}
