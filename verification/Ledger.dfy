/** The append-only hash chain (ledger_core/ledger.py). */
module LedgerCore {
  import opened Prelude
  import opened Crypto

  datatype LedgerEntry = LedgerEntry(
    entryId: int,
    entryType: string,
    content: Json,
    timestamp: string,
    prevHash: Bytes,
    leafHash: Bytes
  )

  datatype LedgerError = EntryTypeRequired | ContentNotADictionary | NoSuchEntry(id: int)

  function LeafMaterial(content: Json, prev: Bytes): Json {
    JObj(map["content" := content, "prev_hash" := JStr(Hex(prev))])
  }

  function LeafBytes(cs: Suite, content: Json, prev: Bytes): Bytes {
    cs.jcs(LeafMaterial(content, prev))
  }

  function LeafHash(cs: Suite, content: Json, prev: Bytes): Digest {
    HashPayload(cs, LeafMaterial(content, prev))
  }

  // ---- The chain a list of contents determines ----

  function PrevOf(cs: Suite, contents: seq<Json>, i: nat): Bytes
    requires i <= |contents|
    decreases i, 0
  {
    if i == 0 then [] else ChainLeaf(cs, contents, i - 1)
  }

  function ChainLeaf(cs: Suite, contents: seq<Json>, i: nat): Digest
    requires i < |contents|
    decreases i, 1
  {
    LeafHash(cs, contents[i], PrevOf(cs, contents, i))
  }

  function ChainLeaves(cs: Suite, contents: seq<Json>): (ls: seq<Digest>)
    ensures |ls| == |contents|
  {
    seq(|contents|, i requires 0 <= i < |contents| => ChainLeaf(cs, contents, i))
  }

  /** The byte strings hashed while chaining `contents`. */
  function ChainInputs(cs: Suite, contents: seq<Json>): set<Bytes> {
    set i | 0 <= i < |contents| :: LeafBytes(cs, contents[i], PrevOf(cs, contents, i))
  }

  function Contents(entries: seq<LedgerEntry>): (c: seq<Json>)
    ensures |c| == |entries|
  {
    seq(|entries|, i requires 0 <= i < |entries| => entries[i].content)
  }

  /** The stored hash columns of entry `i` are the ones live content alone determines. */
  predicate Matches(cs: Suite, entries: seq<LedgerEntry>, i: nat)
    requires i < |entries|
  {
    && entries[i].prevHash == PrevOf(cs, Contents(entries), i)
    && entries[i].leafHash == ChainLeaf(cs, Contents(entries), i)
  }

  /** What `append` alone can produce. */
  ghost predicate Intact(cs: Suite, entries: seq<LedgerEntry>) {
    forall i :: 0 <= i < |entries| ==> Matches(cs, entries, i) && entries[i].entryId == i + 1
  }

  /** The index of the first entry, at or after `i`, whose stored hashes disagree with live content. */
  function FirstBreak(cs: Suite, entries: seq<LedgerEntry>, i: nat := 0): (r: Option<nat>)
    requires i <= |entries|
    ensures r.None? ==> forall j :: i <= j < |entries| ==> Matches(cs, entries, j)
    ensures r.Some? ==> i <= r.value < |entries| && !Matches(cs, entries, r.value)
    ensures r.Some? ==> forall j :: i <= j < r.value ==> Matches(cs, entries, j)
    decreases |entries| - i
  {
    if i == |entries| then None
    else if !Matches(cs, entries, i) then Some(i)
    else FirstBreak(cs, entries, i + 1)
  }

  function BrokenId(entries: seq<LedgerEntry>, at: Option<nat>): Option<int>
    requires at.Some? ==> at.value < |entries|
  {
    match at
    case None => None
    case Some(k) => Some(entries[k].entryId)
  }

  /** Every entry with its hash columns rebuilt from live content (verify_pipeline.py). */
  function Recomputed(cs: Suite, entries: seq<LedgerEntry>): (r: seq<LedgerEntry>)
    ensures |r| == |entries|
  {
    seq(|entries|, i requires 0 <= i < |entries| =>
      entries[i].(prevHash := PrevOf(cs, Contents(entries), i), leafHash := ChainLeaf(cs, Contents(entries), i)))
  }

  // ---- Facts about the chain ----

  lemma {:induction false} ChainOfPrefix(cs: Suite, a: seq<Json>, b: seq<Json>, i: nat)
    requires i < |a| && a <= b
    ensures ChainLeaf(cs, a, i) == ChainLeaf(cs, b, i) && PrevOf(cs, a, i) == PrevOf(cs, b, i)
  {
    if i > 0 { ChainOfPrefix(cs, a, b, i - 1); }
  }

  /** Whether an entry's columns match depends only on the contents up to it. */
  lemma MatchesInPrefix(cs: Suite, a: seq<LedgerEntry>, b: seq<LedgerEntry>, i: nat)
    requires i < |a| && a <= b
    ensures Matches(cs, a, i) == Matches(cs, b, i)
  {
    assert Contents(a) <= Contents(b);
    ChainOfPrefix(cs, Contents(a), Contents(b), i);
  }

  lemma IntactPrefix(cs: Suite, a: seq<LedgerEntry>, b: seq<LedgerEntry>)
    requires a <= b && Intact(cs, b)
    ensures Intact(cs, a)
  {
    forall i | 0 <= i < |a| ensures Matches(cs, a, i) && a[i].entryId == i + 1 {
      MatchesInPrefix(cs, a, b, i);
    }
  }

  /** The entry `append` adds to `entries`. */
  function NextEntry(cs: Suite, entries: seq<LedgerEntry>, entryType: string, content: Json,
                     timestamp: string): LedgerEntry {
    var prev := if entries == [] then [] else entries[|entries| - 1].leafHash;
    LedgerEntry(|entries| + 1, entryType, content, timestamp, prev, LeafHash(cs, content, prev))
  }

  /** One entry more: the next id, what was given, the hash stored last, and the hash of content and that. */
  predicate AddsEntry(cs: Suite, entries: seq<LedgerEntry>, grown: seq<LedgerEntry>, entryType: string, content: Json,
                      timestamp: string) {
    var n := |entries|;
    var prev := if n == 0 then [] else entries[n - 1].leafHash;
    && |grown| == n + 1 && grown[..n] == entries
    && grown[n].entryId == n + 1 && grown[n].entryType == entryType && grown[n].content == content
    && grown[n].timestamp == timestamp && grown[n].prevHash == prev
    && grown[n].leafHash == cs.sha3(cs.jcs(JObj(map["content" := content, "prev_hash" := JStr(Hex(prev))])))
  }

  lemma ContentsAppend(entries: seq<LedgerEntry>, e: LedgerEntry)
    ensures Contents(entries + [e]) == Contents(entries) + [e.content]
  {
  }

  lemma IntactAppend(cs: Suite, entries: seq<LedgerEntry>, grown: seq<LedgerEntry>, e: LedgerEntry)
    requires Intact(cs, entries)
    requires grown == entries + [e]
    requires e == NextEntry(cs, entries, e.entryType, e.content, e.timestamp)
    ensures Intact(cs, grown)
  {
    forall i | 0 <= i < |grown| ensures Matches(cs, grown, i) && grown[i].entryId == i + 1 {
      if i < |entries| {
        MatchesInPrefix(cs, entries, grown, i);
        assert Matches(cs, entries, i);
      } else {
        LastMatches(cs, entries, grown, e);
      }
    }
  }

  lemma LastMatches(cs: Suite, entries: seq<LedgerEntry>, grown: seq<LedgerEntry>, e: LedgerEntry)
    requires Intact(cs, entries)
    requires grown == entries + [e]
    requires e == NextEntry(cs, entries, e.entryType, e.content, e.timestamp)
    ensures Matches(cs, grown, |entries|)
  {
    var n := |entries|;
    ContentsAppend(entries, e);
    if n > 0 {
      assert Matches(cs, entries, n - 1);
      ChainOfPrefix(cs, Contents(entries), Contents(grown), n - 1);
    }
    assert e.prevHash == PrevOf(cs, Contents(grown), n);
  }

  /** Equal hashes of leaf material give equal material, or a collision. */
  lemma LeafBinding(cs: Suite, c1: Json, p1: Bytes, c2: Json, p2: Bytes, hashed: set<Bytes>)
    requires JcsLaws(cs) && !HasCollision(cs, hashed)
    requires LeafBytes(cs, c1, p1) in hashed && LeafBytes(cs, c2, p2) in hashed
    requires LeafHash(cs, c1, p1) == LeafHash(cs, c2, p2)
    ensures c1 == c2 && p1 == p2
  {
    Injective(cs, hashed, LeafBytes(cs, c1, p1), LeafBytes(cs, c2, p2));
    var m1, m2 := LeafMaterial(c1, p1).members, LeafMaterial(c2, p2).members;
    assert m1 == m2;
    assert m1["content"] == c1 && m2["content"] == c2;
    assert m1["prev_hash"] == JStr(Hex(p1)) && m2["prev_hash"] == JStr(Hex(p2));
    HexInjective(p1, p2);
  }

  /** A leaf with a predecessor is encoded in more than the 64 bytes an inner node is hashed from. */
  lemma LongLeaf(cs: Suite, content: Json, prev: Bytes)
    requires JcsLaws(cs) && |prev| == 32
    ensures |LeafBytes(cs, content, prev)| > 64
  {
    var m := LeafMaterial(content, prev).members;
    assert "prev_hash" in m && m["prev_hash"] == JStr(Hex(prev));
  }

  /** Chaining makes leaves pairwise distinct, even for equal contents. */
  lemma {:induction false} ChainLeavesDistinct(cs: Suite, contents: seq<Json>, hashed: set<Bytes>, i: nat, j: nat)
    requires JcsLaws(cs) && !HasCollision(cs, hashed) && ChainInputs(cs, contents) <= hashed
    requires i < j < |contents|
    ensures ChainLeaf(cs, contents, i) != ChainLeaf(cs, contents, j)
  {
    if ChainLeaf(cs, contents, i) == ChainLeaf(cs, contents, j) {
      LeafBinding(cs, contents[i], PrevOf(cs, contents, i), contents[j], PrevOf(cs, contents, j), hashed);
      if i > 0 { ChainLeavesDistinct(cs, contents, hashed, i - 1, j - 1); }
    }
  }

  /** Equal leaf columns come from equal contents. */
  lemma EqualLeavesEqualContents(cs: Suite, a: seq<Json>, b: seq<Json>, hashed: set<Bytes>)
    requires JcsLaws(cs) && !HasCollision(cs, hashed)
    requires ChainInputs(cs, a) <= hashed && ChainInputs(cs, b) <= hashed
    requires ChainLeaves(cs, a) == ChainLeaves(cs, b)
    ensures a == b
  {
    assert |a| == |ChainLeaves(cs, a)| == |ChainLeaves(cs, b)| == |b|;
    forall i | 0 <= i < |a| ensures a[i] == b[i] {
      assert ChainLeaves(cs, a)[i] == ChainLeaves(cs, b)[i];
      LeafBinding(cs, a[i], PrevOf(cs, a, i), b[i], PrevOf(cs, b, i), hashed);
    }
  }

  lemma {:induction false} MatchesIsAgreement(cs: Suite, entries: seq<LedgerEntry>, i: nat)
    requires i < |entries|
    ensures Matches(cs, entries, i) <==> Recomputed(cs, entries)[i] == entries[i]
  {
  }

  /** An entry matches when it carries the hashes that follow from its true predecessor; it then is the next one's. */
  lemma {:induction false} MatchesHere(cs: Suite, entries: seq<LedgerEntry>, i: nat, prev: Bytes)
    requires i < |entries| && prev == PrevOf(cs, Contents(entries), i)
    ensures Matches(cs, entries, i) <==>
              entries[i].prevHash == prev && entries[i].leafHash == LeafHash(cs, entries[i].content, prev)
    ensures Matches(cs, entries, i) ==> entries[i].leafHash == PrevOf(cs, Contents(entries), i + 1)
  {
  }

  lemma {:induction false} FirstBreakOf(cs: Suite, entries: seq<LedgerEntry>, r: seq<LedgerEntry>, k: nat)
    requires |r| == |entries| && forall i :: 0 <= i < |r| ==> (Matches(cs, entries, i) <==> r[i] == entries[i])
    ensures FirstBreak(cs, entries) == None <==> r == entries
    ensures FirstBreak(cs, entries) == Some(k) <==>
              k < |r| && r[k] != entries[k] && forall i :: 0 <= i < k ==> r[i] == entries[i]
  {
    var b := FirstBreak(cs, entries);
    if b.Some? {
      assert !Matches(cs, entries, b.value);
      assert r[b.value] != entries[b.value];
    }
  }

  /** Fault localisation, in words that mention neither the recursion nor the loop that computes it. */
  lemma {:induction false} FirstBreakExact(cs: Suite, entries: seq<LedgerEntry>, k: nat)
    ensures FirstBreak(cs, entries) == None <==> Recomputed(cs, entries) == entries
    ensures FirstBreak(cs, entries) == Some(k) <==>
              k < |entries| && Recomputed(cs, entries)[k] != entries[k] &&
              forall i :: 0 <= i < k ==> Recomputed(cs, entries)[i] == entries[i]
  {
    forall i | 0 <= i < |entries| ensures Matches(cs, entries, i) <==> Recomputed(cs, entries)[i] == entries[i] {
      MatchesIsAgreement(cs, entries, i);
    }
    FirstBreakOf(cs, entries, Recomputed(cs, entries), k);
  }

  /** Entry `k` is the first whose hash columns are not the recomputed ones. */
  predicate FirstDiffers(cs: Suite, entries: seq<LedgerEntry>, k: nat) {
    && k < |entries| && Recomputed(cs, entries)[k] != entries[k]
    && forall i :: 0 <= i < k ==> Recomputed(cs, entries)[i] == entries[i]
  }

  /** The id reported is that of the first entry that differs, and there is none exactly when none differs. */
  lemma {:induction false} BrokenIdExactly(cs: Suite, entries: seq<LedgerEntry>, id: int)
    ensures BrokenId(entries, FirstBreak(cs, entries)) == None <==> Recomputed(cs, entries) == entries
    ensures BrokenId(entries, FirstBreak(cs, entries)) == Some(id) <==>
              exists k: nat :: FirstDiffers(cs, entries, k) && entries[k].entryId == id
  {
    FirstBreakExact(cs, entries, 0);
    forall k: nat ensures FirstDiffers(cs, entries, k) <==> FirstBreak(cs, entries) == Some(k) {
      DiffersAtBreak(cs, entries, k);
    }
  }

  lemma {:induction false} DiffersAtBreak(cs: Suite, entries: seq<LedgerEntry>, k: nat)
    ensures FirstDiffers(cs, entries, k) <==> FirstBreak(cs, entries) == Some(k)
  {
    FirstBreakExact(cs, entries, k);
  }

  lemma {:induction false} FirstBreakIs(cs: Suite, entries: seq<LedgerEntry>, b: Option<nat>)
    requires b.Some? ==> b.value < |entries| && !Matches(cs, entries, b.value)
    requires forall j :: 0 <= j < (if b.Some? then b.value else |entries|) ==> Matches(cs, entries, j)
    ensures FirstBreak(cs, entries) == b
    ensures b == None <==> Recomputed(cs, entries) == entries
  {
    FirstBreakExact(cs, entries, 0);
  }

  /** Cutting a ledger keeps its first break if that lies inside the cut, and loses it otherwise. */
  lemma FirstBreakOfPrefix(cs: Suite, entries: seq<LedgerEntry>, k: nat)
    requires k <= |entries|
    ensures var whole := FirstBreak(cs, entries);
            FirstBreak(cs, entries[..k]) == if whole.Some? && whole.value < k then whole else None
  {
    forall i | 0 <= i < k ensures Matches(cs, entries[..k], i) == Matches(cs, entries, i) {
      MatchesInPrefix(cs, entries[..k], entries, i);
    }
  }

  class Ledger {
    const cs: Suite
    var entries: seq<LedgerEntry>

    constructor (cs: Suite)
      ensures this.cs == cs && entries == [] && Intact(cs, entries)
    {
      this.cs := cs;
      entries := [];
    }

    constructor FromEntries(cs: Suite, stored: seq<LedgerEntry>)
      ensures this.cs == cs && entries == stored
    {
      this.cs := cs;
      entries := stored;
    }

    /** Chains onto whatever leaf hash is stored last; an intact ledger stays intact. */
    method Append(entryType: string, content: Json, timestamp: string) returns (r: Result<LedgerEntry, LedgerError>)
      modifies this
      ensures entryType == "" ==> r == Failure(EntryTypeRequired)
      ensures entryType != "" && !content.JObj? ==> r == Failure(ContentNotADictionary)
      ensures entryType != "" && content.JObj? ==>
                r == Success(NextEntry(cs, old(entries), entryType, content, timestamp))
      ensures entries == if r.Success? then old(entries) + [r.value] else old(entries)
      ensures r.Success? ==> AddsEntry(cs, old(entries), entries, entryType, content, timestamp)
      ensures old(Intact(cs, entries)) ==> Intact(cs, entries)
    {
      if entryType == "" { return Failure(EntryTypeRequired); }
      if !content.JObj? { return Failure(ContentNotADictionary); }
      var prevHash := if entries == [] then [] else entries[|entries| - 1].leafHash;
      var entry := LedgerEntry(|entries| + 1, entryType, content, timestamp, prevHash, LeafHash(cs, content, prevHash));
      ghost var before := entries;
      entries := entries + [entry];
      ContentsAppend(before, entry);
      if Intact(cs, before) {
        IntactAppend(cs, before, entries, entry);
      }
      return Success(entry);
    }

    method GetEntry(entryId: int) returns (r: Result<LedgerEntry, LedgerError>)
      ensures r == if 1 <= entryId <= |entries| then Success(entries[entryId - 1]) else Failure(NoSuchEntry(entryId))
      ensures Intact(cs, entries) && r.Success? ==> r.value.entryId == entryId
    {
      if entryId < 1 || entryId > |entries| { return Failure(NoSuchEntry(entryId)); }
      return Success(entries[entryId - 1]);
    }

    /** Threads stored leaf hashes, yet finds the first entry that differs from the recomputed chain. */
    method FirstInvalidEntryId() returns (r: Option<int>)
      ensures r == BrokenId(entries, FirstBreak(cs, entries))
      ensures r == None <==> Recomputed(cs, entries) == entries
      ensures r.Some? ==> exists k: nat :: FirstDiffers(cs, entries, k) && entries[k].entryId == r.value
    {
      var expectedPrevHash: Bytes := [];
      for i := 0 to |entries|
        invariant expectedPrevHash == PrevOf(cs, Contents(entries), i)
        invariant forall j :: 0 <= j < i ==> Matches(cs, entries, j)
      {
        var entry := entries[i];
        MatchesHere(cs, entries, i, expectedPrevHash);
        var expectedLeafHash := LeafHash(cs, entry.content, expectedPrevHash);
        if entry.prevHash != expectedPrevHash || entry.leafHash != expectedLeafHash {
          FirstBreakIs(cs, entries, Some(i));
          BrokenIdExactly(cs, entries, entry.entryId);
          return Some(entry.entryId);
        }
        expectedPrevHash := entry.leafHash;
      }
      FirstBreakIs(cs, entries, None);
      return None;
    }

    method VerifyChain() returns (ok: bool)
      ensures ok <==> Recomputed(cs, entries) == entries
    {
      var invalid := FirstInvalidEntryId();
      return invalid == None;
    }
  }
}
