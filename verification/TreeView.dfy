/** The tree drawn by the portal (verification_portal/backend/verify_pipeline.py, models.py). */
module TreeView {
  import opened Prelude
  import opened Crypto
  import opened LedgerCore
  import opened Merkle

  datatype Label = Leaves | RootLabel | Level(index: nat)

  datatype MerkleNodeView = MerkleNodeView(hash: string, entryId: Option<int>, duplicated: bool)

  datatype MerkleLevelView = MerkleLevelView(level: nat, caption: Label, nodes: seq<MerkleNodeView>)

  datatype MerkleTreeView = MerkleTreeView(
    root: string,
    signedRoot: Option<string>,
    rootMatchesSigned: Option<bool>,
    leafCount: nat,
    proofEntryId: Option<int>,
    proofValid: Option<bool>,
    levels: seq<MerkleLevelView>
  )

  /** How many nodes level `i` shows: an odd level below the root shows its last node twice. */
  function ShownCount(levels: seq<seq<Digest>>, i: nat): nat
    requires i < |levels|
  {
    |levels[i]| + if i < |levels| - 1 && |levels[i]| % 2 == 1 then 1 else 0
  }

  function NodeViewAt(levels: seq<seq<Digest>>, ids: seq<int>, i: nat, j: nat): MerkleNodeView
    requires i < |levels| && levels[i] != [] && ids != []
  {
    MerkleNodeView(
      Hex(At(levels[i], j)),
      if i == 0 then Some(ids[if j < |ids| then j else |ids| - 1]) else None,
      j == |levels[i]|)
  }

  function LevelViewAt(levels: seq<seq<Digest>>, ids: seq<int>, i: nat): MerkleLevelView
    requires i < |levels| && levels[i] != [] && ids != []
  {
    MerkleLevelView(
      i,
      if i == 0 then Leaves else if i == |levels| - 1 then RootLabel else Level(i),
      seq(ShownCount(levels, i), j requires 0 <= j => NodeViewAt(levels, ids, i, j)))
  }

  function EntryIds(entries: seq<LedgerEntry>): (ids: seq<int>)
    ensures |ids| == |entries| && forall i :: 0 <= i < |entries| ==> ids[i] == entries[i].entryId
  {
    seq(|entries|, i requires 0 <= i < |entries| => entries[i].entryId)
  }

  function LevelViews(levels: seq<seq<Digest>>, ids: seq<int>): (views: seq<MerkleLevelView>)
    requires ids != [] && forall i :: 0 <= i < |levels| ==> levels[i] != []
    ensures |views| == |levels|
  {
    seq(|levels|, i requires 0 <= i < |levels| => LevelViewAt(levels, ids, i))
  }

  function ViewOf(tree: MerkleTree, entries: seq<LedgerEntry>, signedRoot: Option<string>, proofEntryId: Option<int>,
                  proofValid: Option<bool>): MerkleTreeView
    requires tree.WellFormed() && entries != [] && forall i :: 0 <= i < |tree.levels| ==> tree.levels[i] != []
  {
    var root := Hex(tree.RootHash());
    MerkleTreeView(root, signedRoot,
                   if signedRoot.Some? && signedRoot.value != "" then Some(root == signedRoot.value) else None,
                   |entries|, proofEntryId, proofValid, LevelViews(tree.levels, EntryIds(entries)))
  }

  lemma NoEmptyLevel(tree: MerkleTree, i: nat)
    requires tree.WellFormed() && i < |tree.levels|
    ensures tree.levels[i] != []
  {
    if i < |tree.levels| - 1 { assert HalvesAt(tree.levels, i); }
  }

  method BuildLevelView(levels: seq<seq<Digest>>, ids: seq<int>, levelIndex: nat) returns (view: MerkleLevelView)
    requires levelIndex < |levels| && levels[levelIndex] != [] && ids != []
    ensures view == LevelViewAt(levels, ids, levelIndex)
  {
    var displayHashes := levels[levelIndex];
    var duplicateIndex: Option<nat> := None;
    if levelIndex < |levels| - 1 && |displayHashes| % 2 == 1 {
      duplicateIndex := Some(|displayHashes|);
      displayHashes := displayHashes + [displayHashes[|displayHashes| - 1]];
    }
    var nodes: seq<MerkleNodeView> := [];
    for j := 0 to |displayHashes|
      invariant |nodes| == j
      invariant forall k :: 0 <= k < j ==> nodes[k] == NodeViewAt(levels, ids, levelIndex, k)
    {
      var entryId := if levelIndex == 0 then Some(ids[if j < |ids| - 1 then j else |ids| - 1]) else None;
      nodes := nodes + [MerkleNodeView(Hex(displayHashes[j]), entryId, duplicateIndex == Some(j))];
    }
    var caption := if levelIndex == 0 then Leaves
                   else if levelIndex == |levels| - 1 then RootLabel
                   else Level(levelIndex);
    return MerkleLevelView(levelIndex, caption, nodes);
  }

  method BuildTreeView(tree: MerkleTree, entries: seq<LedgerEntry>, signedRoot: Option<string>,
                       proofEntryId: Option<int>,
                       proofValid: Option<bool>) returns (view: MerkleTreeView)
    requires tree.WellFormed() && entries != []
    ensures forall i :: 0 <= i < |tree.levels| ==> tree.levels[i] != []
    ensures view == ViewOf(tree, entries, signedRoot, proofEntryId, proofValid)
  {
    forall i | 0 <= i < |tree.levels| ensures tree.levels[i] != [] { NoEmptyLevel(tree, i); }
    var ids := EntryIds(entries);
    var levels: seq<MerkleLevelView> := [];
    for i := 0 to |tree.levels|
      invariant |levels| == i
      invariant forall k :: 0 <= k < i ==> levels[k] == LevelViewAt(tree.levels, ids, k)
    {
      var level := BuildLevelView(tree.levels, ids, i);
      levels := levels + [level];
    }
    assert levels == LevelViews(tree.levels, ids);
    var root := Hex(tree.RootHash());
    var rootMatches := if signedRoot.Some? && signedRoot.value != "" then Some(root == signedRoot.value) else None;
    return MerkleTreeView(root, signedRoot, rootMatches, |entries|, proofEntryId, proofValid, levels);
  }

  // ---- What is drawn is the tree ----

  /** `nodes[j]` of one level is drawn as the parent of nodes `2j` and `2j + 1` of the level below. */
  ghost predicate DrawnAsParent(cs: Suite, below: seq<MerkleNodeView>, above: seq<MerkleNodeView>, j: nat)
    requires j < |above| && 2 * j + 1 < |below|
  {
    exists left: Digest, right: Digest ::
      && below[2 * j].hash == Hex(left) && below[2 * j + 1].hash == Hex(right)
      && above[j].hash == Hex(ParentHash(cs, left, right))
  }

  /** Level `i` as drawn has an even number of nodes, two under each real node one level up, of which that node is drawn
      as the parent; exactly the padding is flagged, and it repeats the last real node. */
  ghost predicate DrawnFaithfully(cs: Suite, levels: seq<seq<Digest>>, ids: seq<int>, i: nat)
    requires i + 1 < |levels| && levels[i] != [] && levels[i + 1] != [] && ids != []
  {
    var below, above := LevelViewAt(levels, ids, i).nodes, LevelViewAt(levels, ids, i + 1).nodes;
    && |below| == 2 * |levels[i + 1]| && |levels[i + 1]| <= |above|
    && (forall j :: 0 <= j < |levels[i + 1]| ==> DrawnAsParent(cs, below, above, j))
    && (forall j :: 0 <= j < |below| ==> (below[j].duplicated <==> j >= |levels[i]|))
    && (forall j :: |levels[i]| <= j < |below| ==> below[j].hash == below[|levels[i]| - 1].hash)
  }

  lemma {:induction false} DrawnLevel(cs: Suite, levels: seq<seq<Digest>>, ids: seq<int>, i: nat)
    requires i + 1 < |levels| && |levels[i]| > 1 && ids != []
    requires levels[i + 1] == NextLevel(cs, levels[i])
    ensures DrawnFaithfully(cs, levels, ids, i)
  {
    var level, next := levels[i], levels[i + 1];
    var below, above := LevelViewAt(levels, ids, i).nodes, LevelViewAt(levels, ids, i + 1).nodes;
    forall j | 0 <= j < |next| ensures DrawnAsParent(cs, below, above, j) {
      var left, right := At(level, 2 * j), At(level, 2 * j + 1);
      assert below[2 * j].hash == Hex(left) && below[2 * j + 1].hash == Hex(right);
      assert next[j] == ParentHash(cs, left, right) && above[j].hash == Hex(next[j]);
    }
  }

  /** The display of any buildable tree is faithful below its root, and its leaves carry entry ids in ledger order. */
  lemma {:induction false} DisplayIsFaithful(cs: Suite, entries: seq<LedgerEntry>, i: nat)
    requires TreeOf(cs, entries).Success? && i < Height(|entries|)
    ensures var levels := TreeOf(cs, entries).value.levels;
            && i + 1 < |levels| && levels[i] != [] && levels[i + 1] != []
            && DrawnFaithfully(cs, levels, EntryIds(entries), i)
  {
    var leaves := LeafHashes(entries);
    var levels := TreeOf(cs, entries).value.levels;
    assert levels == Levels(cs, leaves);
    LevelHeight(cs, leaves, i);
    assert levels[i] == LevelAt(cs, leaves, i) && levels[i + 1] == LevelAt(cs, leaves, i + 1);
    DrawnLevel(cs, levels, EntryIds(entries), i);
  }

  lemma {:induction false} LeavesInLedgerOrder(cs: Suite, entries: seq<LedgerEntry>, j: nat)
    requires TreeOf(cs, entries).Success? && j < |entries|
    ensures var levels := TreeOf(cs, entries).value.levels;
            && levels[0] != []
            && var nodes := LevelViewAt(levels, EntryIds(entries), 0).nodes;
               && j < |nodes| && nodes[j].entryId == Some(entries[j].entryId)
               && nodes[j].hash == Hex(entries[j].leafHash)
  {
    var leaves := LeafHashes(entries);
    assert TreeOf(cs, entries).value.levels == Levels(cs, leaves);
    assert Levels(cs, leaves)[0] == LevelAt(cs, leaves, 0) == leaves;
  }

  /** The topmost drawn level is the root alone. */
  lemma RootIsDrawnAlone(cs: Suite, entries: seq<LedgerEntry>)
    requires TreeOf(cs, entries).Success?
    ensures var t := TreeOf(cs, entries).value;
            && t.WellFormed() && |t.levels| == Height(|entries|) + 1
            && t.levels[Height(|entries|)] != []
            && var top := LevelViewAt(t.levels, EntryIds(entries), Height(|entries|)).nodes;
               |top| == 1 && top[0].hash == Hex(t.RootHash()) && !top[0].duplicated
  {
    TreeOfWellFormed(cs, entries);
  }

  /** Levels are numbered from the leaves up; the first is labelled as the leaves, even when it is the only one, and the
      last of several as the root. */
  lemma LevelsAreLabelled(levels: seq<seq<Digest>>, ids: seq<int>, i: nat)
    requires i < |levels| && levels[i] != [] && ids != []
    ensures var drawn := LevelViewAt(levels, ids, i);
            && drawn.level == i
            && (drawn.caption == Leaves <==> i == 0)
            && (drawn.caption == RootLabel <==> 0 < i && i == |levels| - 1)
            && (drawn.caption == Level(i) <==> 0 < i < |levels| - 1)
  {
  }
}
