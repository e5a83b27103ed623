/** Swapping `+` with `-` and old starts with new starts turns a patch into the one that undoes it. */
module DiffInverse {
  import opened Prelude
  import opened UnifiedDiff
  import opened DiffTheorems

  function InvertLine(d: DiffLine): DiffLine {
    match d
    case Context(text) => Context(text)
    case Delete(text) => Add(text)
    case Add(text) => Delete(text)
    case Marker(text) => Marker(text)
  }

  function InvertBody(body: seq<DiffLine>): seq<DiffLine> {
    if body == [] then [] else [InvertLine(body[0])] + InvertBody(body[1..])
  }

  function InvertHunk(h: Hunk): Hunk {
    Hunk(h.newStart, h.newCount, h.oldStart, h.oldCount, h.heading, InvertBody(h.body))
  }

  function InvertAll(hs: seq<Hunk>): seq<Hunk> {
    if hs == [] then [] else [InvertHunk(hs[0])] + InvertAll(hs[1..])
  }

  lemma {:induction false} InvertedBlocks(body: seq<DiffLine>)
    ensures Old(InvertBody(body)) == New(body) && New(InvertBody(body)) == Old(body)
  {
    if body != [] {
      InvertedBlocks(body[1..]);
      assert InvertBody(body)[1..] == InvertBody(body[1..]);
    }
  }

  // ---- On lines ----

  /** `after` is `before + block + rest` from position `at` on, so it splits into those pieces. */
  lemma Pieces(after: seq<string>, at: nat, before: seq<string>, block: seq<string>, rest: seq<string>)
    requires at <= |after| && after[at..] == before + block + rest
    ensures var b := at + |before|;
            && b + |block| <= |after|
            && after[at..b] == before && BlockAt(after, b, block) && after[b + |block|..] == rest
  {
    var b := at + |before|;
    var tail := after[at..];
    assert |tail| == |before| + |block| + |rest|;
    assert after[at..b] == tail[..|before|] == before;
    assert after[b..b + |block|] == tail[|before|..|before| + |block|] == block;
    assert after[b + |block|..] == tail[|before| + |block|..] == rest;
  }

  lemma Reassemble(lines: seq<string>, from: nat, s: nat, block: seq<string>)
    requires from <= s && BlockAt(lines, s, block)
    ensures lines[from..s] + block + lines[s + |block|..] == lines[from..]
  {
  }

  /** `hs` turns what `after` holds from `at` on into `whole`. */
  predicate TurnsInto(after: seq<string>, at: nat, hs: seq<Hunk>, whole: seq<string>) {
    at <= |after| && Ordered(hs, at) && AllMatch(after, hs) && Assembled(after, at, hs) == whole
  }

  /** One more hunk in front of hunks that already turn the rest of the file into `whole`. */
  lemma {:induction false} ConsHunk(after: seq<string>, at: nat, h: Hunk, hs: seq<Hunk>, whole: seq<string>)
    requires at < h.oldStart && Old(h.body) != [] && OldBlockAt(after, h) && TurnsInto(after, NextAt(h), hs, whole)
    ensures TurnsInto(after, at, [h] + hs, after[at..h.oldStart - 1] + New(h.body) + whole)
  {
    assert ([h] + hs)[1..] == hs;
    AssembledUnfold(after, at, [h] + hs);
  }

  /** From position `at` on, `after` is the file that `hs` make of `lines` from position `from` on. */
  predicate Patched(lines: seq<string>, from: nat, hs: seq<Hunk>, after: seq<string>, at: nat) {
    && from <= |lines| && at <= |after|
    && Ordered(hs, from) && AllMatch(lines, hs) && AllHaveNew(hs) && Consistent(hs, at - from)
    && after[at..] == Assembled(lines, from, hs)
  }

  /** The patched file starts with what lies before the first hunk and its new lines. */
  predicate StartsWithHunk(lines: seq<string>, from: nat, h: Hunk, after: seq<string>, at: nat) {
    && from < h.oldStart && OldBlockAt(lines, h) && at < h.newStart && New(h.body) != []
    && BlockAt(after, h.newStart - 1, New(h.body))
    && after[at..h.newStart - 1] == lines[from..h.oldStart - 1]
  }

  function NewEnd(h: Hunk): int {
    h.newStart - 1 + |New(h.body)|
  }

  lemma {:induction false} HunksStep(lines: seq<string>, hs: seq<Hunk>, from: nat, at: nat)
    requires hs != [] && Ordered(hs, from) && Consistent(hs, at - from) && AllMatch(lines, hs) && AllHaveNew(hs)
    ensures from < hs[0].oldStart && hs[0].newStart - at == hs[0].oldStart - from
    ensures OldBlockAt(lines, hs[0]) && New(hs[0].body) != []
    ensures Ordered(hs[1..], NextAt(hs[0])) && Consistent(hs[1..], NewEnd(hs[0]) - NextAt(hs[0]))
    ensures AllMatch(lines, hs[1..]) && AllHaveNew(hs[1..])
  {
  }

  lemma {:induction false} SplitAtHunk(lines: seq<string>, from: nat, h: Hunk, whole: seq<string>, left: seq<string>,
                                       after: seq<string>, at: nat)
    requires from < h.oldStart && OldBlockAt(lines, h) && New(h.body) != []
    requires at <= |after| && h.newStart - at == h.oldStart - from
    requires after[at..] == whole && whole == lines[from..h.oldStart - 1] + New(h.body) + left
    ensures StartsWithHunk(lines, from, h, after, at)
    ensures 0 <= NewEnd(h) <= |after| && after[NewEnd(h)..] == left
  {
    Pieces(after, at, lines[from..h.oldStart - 1], New(h.body), left);
  }

  lemma {:induction false} FirstPiece(lines: seq<string>, from: nat, hs: seq<Hunk>, after: seq<string>, at: nat)
    requires hs != [] && Patched(lines, from, hs, after, at)
    ensures StartsWithHunk(lines, from, hs[0], after, at)
    ensures Patched(lines, NextAt(hs[0]), hs[1..], after, NewEnd(hs[0]))
  {
    HunksStep(lines, hs, from, at);
    AssembledUnfold(lines, from, hs);
    var left := Assembled(lines, NextAt(hs[0]), hs[1..]);
    SplitAtHunk(lines, from, hs[0], Assembled(lines, from, hs), left, after, at);
  }

  lemma {:induction false} InvertedEnds(h: Hunk)
    ensures Old(InvertHunk(h).body) == New(h.body) && New(InvertHunk(h).body) == Old(h.body)
    ensures NextAt(InvertHunk(h)) == NewEnd(h)
  {
    InvertedBlocks(h.body);
  }

  lemma {:induction false} InvertFirst(lines: seq<string>, from: nat, h: Hunk, inverted: seq<Hunk>,
                                       after: seq<string>, at: nat)
    requires StartsWithHunk(lines, from, h, after, at)
    requires TurnsInto(after, NewEnd(h), inverted, lines[NextAt(h)..])
    ensures TurnsInto(after, at, [InvertHunk(h)] + inverted, lines[from..])
  {
    InvertedEnds(h);
    ConsHunk(after, at, InvertHunk(h), inverted, lines[NextAt(h)..]);
    Reassemble(lines, from, h.oldStart - 1, Old(h.body));
  }

  lemma {:induction false} NothingToInvert(lines: seq<string>, from: nat, after: seq<string>, at: nat)
    requires Patched(lines, from, [], after, at)
    ensures TurnsInto(after, at, [], lines[from..])
  {
  }

  /** The patched file, read from where it takes over, is what the inverted hunks turn back. */
  lemma {:induction false} InvertFrom(lines: seq<string>, from: nat, hs: seq<Hunk>, after: seq<string>, at: nat)
    requires Patched(lines, from, hs, after, at)
    ensures TurnsInto(after, at, InvertAll(hs), lines[from..])
    decreases |hs|
  {
    if hs == [] {
      NothingToInvert(lines, from, after, at);
    } else {
      FirstPiece(lines, from, hs, after, at);
      InvertFrom(lines, NextAt(hs[0]), hs[1..], after, NewEnd(hs[0]));
      InvertFirst(lines, from, hs[0], InvertAll(hs[1..]), after, at);
    }
  }

  /** On lines: wherever the patch applies, the inverted patch applies to the result and restores the original. */
  lemma {:induction false} InverseOnLines(lines: seq<string>, hs: seq<Hunk>, preamble: seq<string>,
                                          preamble': seq<string>)
    requires hs != [] && Ordered(hs, 0) && Consistent(hs, 0) && AllHaveNew(hs) && NoHunkIn(preamble)
    requires NoHunkIn(preamble')
    requires ApplyLines(lines, preamble + RenderHunks(hs)).Success?
    ensures ApplyLines(lines, preamble + RenderHunks(hs)) == Success(ReplaceBlocks(lines, hs)) && AllMatch(lines, hs)
    ensures ApplyLines(ReplaceBlocks(lines, hs), preamble' + RenderHunks(InvertAll(hs))) == Success(lines)
  {
    RenderedIsPatch(preamble, hs);
    RefinesBlockReplacement(lines, preamble + RenderHunks(hs), hs);
    var after := ReplaceBlocks(lines, hs);
    AssembledWhole(lines, hs);
    assert after[0..] == after && lines[0..] == lines;
    InvertFrom(lines, 0, hs, after, 0);
    RenderedIsPatch(preamble', InvertAll(hs));
    RefinesBlockReplacement(after, preamble' + RenderHunks(InvertAll(hs)), InvertAll(hs));
    AssembledWhole(after, InvertAll(hs));
  }

  // ---- On text ----

  predicate BodyTerminated(body: seq<DiffLine>) {
    forall i :: 0 <= i < |body| ==> Terminated(body[i].text)
  }

  predicate TextsTerminated(hs: seq<Hunk>) {
    hs == [] || (Terminated(" @@" + hs[0].heading) && BodyTerminated(hs[0].body) && TextsTerminated(hs[1..]))
  }

  lemma {:induction false} BlocksTerminated(body: seq<DiffLine>)
    requires BodyTerminated(body)
    ensures AllTerminated(Old(body)) && AllTerminated(New(body))
  {
    if body != [] {
      assert forall i :: 0 <= i < |body| - 1 ==> body[1..][i] == body[i + 1];
      BlocksTerminated(body[1..]);
      assert Terminated(body[0].text);
    }
  }

  lemma ConcatTerminated(a: seq<string>, b: seq<string>)
    requires AllTerminated(a) && AllTerminated(b)
    ensures AllTerminated(a + b)
  {
  }

  lemma SliceTerminated(lines: seq<string>, from: nat, to: nat)
    requires from <= to <= |lines| && AllTerminated(lines)
    ensures AllTerminated(lines[from..to])
  {
  }

  lemma {:induction false} ResultTerminated(lines: seq<string>, from: nat, hs: seq<Hunk>)
    requires from <= |lines| && Ordered(hs, from) && AllMatch(lines, hs) && AllTerminated(lines) && TextsTerminated(hs)
    ensures AllTerminated(Assembled(lines, from, hs))
    decreases |hs|
  {
    if hs == [] {
      SliceTerminated(lines, from, |lines|);
    } else {
      var s := hs[0].oldStart - 1;
      AssembledUnfold(lines, from, hs);
      ResultTerminated(lines, NextAt(hs[0]), hs[1..]);
      BlocksTerminated(hs[0].body);
      SliceTerminated(lines, from, s);
      ConcatTerminated(lines[from..s], New(hs[0].body));
      ConcatTerminated(lines[from..s] + New(hs[0].body), Assembled(lines, NextAt(hs[0]), hs[1..]));
    }
  }

  predicate NoBreaks(s: string) {
    forall i :: 0 <= i < |s| ==> !IsBreak(s[i])
  }

  lemma NumeralHasNoBreaks(n: nat)
    ensures NoBreaks(Decimal(n))
  {
    DecimalParses(n);
  }

  lemma NoBreaksConcat(a: string, b: string)
    requires NoBreaks(a) && NoBreaks(b)
    ensures NoBreaks(a + b)
  {
  }

  /** A line stays one when text without line breaks is put in front. */
  lemma Prepended(front: string, line: string)
    requires NoBreaks(front) && Terminated(line)
    ensures Terminated(front + line)
  {
    var whole := front + line;
    forall i | 0 <= i < |whole| - 1 ensures !IsBreak(whole[i]) {
      if i >= |front| { assert whole[i] == line[i - |front|]; }
    }
  }

  lemma CountTerminated(count: Option<nat>, line: string)
    requires Terminated(line)
    ensures Terminated(RenderCount(count) + line)
  {
    if count.Some? {
      NumeralHasNoBreaks(count.value);
      NoBreaksConcat(",", Decimal(count.value));
    }
    Prepended(RenderCount(count), line);
  }

  lemma StartTerminated(prefix: string, n: nat, line: string)
    requires NoBreaks(prefix) && Terminated(line)
    ensures Terminated(prefix + Decimal(n) + line)
  {
    NumeralHasNoBreaks(n);
    NoBreaksConcat(prefix, Decimal(n));
    Prepended(prefix + Decimal(n), line);
  }

  lemma HeaderTerminated(h: Hunk)
    requires Terminated(" @@" + h.heading)
    ensures Terminated(RenderHeader(h))
  {
    CountTerminated(h.newCount, " @@" + h.heading);
    StartTerminated(" +", h.newStart, RenderCount(h.newCount) + (" @@" + h.heading));
    CountTerminated(h.oldCount, " +" + Decimal(h.newStart) + (RenderCount(h.newCount) + (" @@" + h.heading)));
    StartTerminated("@@ -", h.oldStart,
                    RenderCount(h.oldCount)
                    + (" +" + Decimal(h.newStart) + (RenderCount(h.newCount) + (" @@" + h.heading))));
  }

  lemma LineTerminated(d: DiffLine)
    requires Terminated(d.text)
    ensures Terminated(RenderLine(d))
  {
    RenderedLine(d);
    var line := RenderLine(d);
    assert forall i :: 0 < i < |line| ==> line[i] == d.text[i - 1];
  }

  lemma {:induction false} RenderedTerminated(hs: seq<Hunk>)
    requires TextsTerminated(hs)
    ensures AllTerminated(RenderHunks(hs))
  {
    if hs != [] {
      RenderedTerminated(hs[1..]);
      HunkTerminated(hs[0]);
    }
  }

  lemma HunkTerminated(h: Hunk)
    requires Terminated(" @@" + h.heading) && BodyTerminated(h.body)
    ensures AllTerminated(RenderHunk(h))
  {
    HeaderTerminated(h);
    BodyLinesTerminated(h.body);
    HeadTerminated(RenderHeader(h), RenderBody(h.body));
  }

  lemma HeadTerminated(line: string, lines: seq<string>)
    requires Terminated(line) && AllTerminated(lines)
    ensures AllTerminated([line] + lines)
  {
    forall i | 0 <= i < |[line] + lines| ensures Terminated(([line] + lines)[i]) {
      if i > 0 { assert ([line] + lines)[i] == lines[i - 1]; }
    }
  }

  lemma BodyLinesTerminated(body: seq<DiffLine>)
    requires BodyTerminated(body)
    ensures AllTerminated(RenderBody(body))
  {
    forall i | 0 <= i < |body| ensures Terminated(RenderBody(body)[i]) {
      LineTerminated(body[i]);
    }
  }

  lemma {:induction false} PatchLines(preamble: seq<string>, hs: seq<Hunk>)
    requires AllTerminated(preamble) && TextsTerminated(hs)
    ensures SplitLines(PatchText(preamble, hs)) == preamble + RenderHunks(hs)
  {
    RenderedTerminated(hs);
    SplitJoin(preamble + RenderHunks(hs));
  }

  lemma {:induction false} InvertedTerminated(body: seq<DiffLine>)
    requires BodyTerminated(body)
    ensures BodyTerminated(InvertBody(body))
  {
    if body != [] {
      assert forall i :: 0 <= i < |body| - 1 ==> body[1..][i] == body[i + 1];
      InvertedTerminated(body[1..]);
      assert Terminated(body[0].text);
    }
  }

  lemma {:induction false} InvertedTextsTerminated(hs: seq<Hunk>)
    requires TextsTerminated(hs)
    ensures TextsTerminated(InvertAll(hs))
  {
    if hs != [] {
      InvertedTextsTerminated(hs[1..]);
      InvertedTerminated(hs[0].body);
    }
  }

  /** A patch applied to a text and then, swapped, to the result returns the text: for newline-terminated lines and
      ordered, disjoint hunks with old and new lines and consistent new starts. Lines before the first hunk play no
      part. */
  lemma {:induction false} PatchThenInverse(original: string, preamble: seq<string>, preamble': seq<string>,
                                            hs: seq<Hunk>, patched: string)
    requires AllTerminated(SplitLines(original)) && TextsTerminated(hs)
    requires AllTerminated(preamble) && AllTerminated(preamble') && NoHunkIn(preamble) && NoHunkIn(preamble')
    requires hs != [] && Ordered(hs, 0) && Consistent(hs, 0) && AllHaveNew(hs)
    requires Apply(original, PatchText(preamble, hs)) == Success(patched)
    ensures Apply(patched, PatchText(preamble', InvertAll(hs))) == Success(original)
  {
    var lines := SplitLines(original);
    PatchLines(preamble, hs);
    InvertedTextsTerminated(hs);
    PatchLines(preamble', InvertAll(hs));
    InverseOnLines(lines, hs, preamble, preamble');
    PatchedLines(lines, hs);
    JoinSplit(original);
  }

  lemma {:induction false} PatchedLines(lines: seq<string>, hs: seq<Hunk>)
    requires Ordered(hs, 0) && AllMatch(lines, hs) && AllTerminated(lines) && TextsTerminated(hs)
    ensures SplitLines(Join(ReplaceBlocks(lines, hs))) == ReplaceBlocks(lines, hs)
  {
    AssembledWhole(lines, hs);
    ResultTerminated(lines, 0, hs);
    SplitJoin(ReplaceBlocks(lines, hs));
  }
}
