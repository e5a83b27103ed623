/**
 Marker lines. After a line of a hunk, "\ No newline at end of file" means that the line it follows has no newline at
 its end. The applier skips markers. This module says for every patch exactly when skipping them does what they mean.
 */
module DiffMarkers {
  import opened Prelude
  import opened UnifiedDiff
  import opened DiffTheorems

  // ---- What markers mean ----

  function Chop(text: string): string {
    if text != "" && text[|text| - 1] == '\n' then text[..|text| - 1] else text
  }

  /** A marker follows the first line. */
  predicate MarkedFirst(body: seq<DiffLine>) {
    |body| > 1 && !body[0].Marker? && body[1].Marker?
  }

  /** The lines of a hunk with every marker honoured and gone. */
  function Meant(body: seq<DiffLine>): seq<DiffLine> {
    if body == [] then []
    else if body[0].Marker? then Meant(body[1..])
    else if MarkedFirst(body) then [body[0].(text := Chop(body[0].text))] + Meant(body[1..])
    else [body[0]] + Meant(body[1..])
  }

  function MeantHunk(h: Hunk): Hunk {
    h.(body := Meant(h.body))
  }

  function MeantAll(hs: seq<Hunk>): (ms: seq<Hunk>)
    ensures |ms| == |hs|
  {
    if hs == [] then [] else [MeantHunk(hs[0])] + MeantAll(hs[1..])
  }

  /** No marker follows a line that has a newline to lose. */
  predicate Idle(body: seq<DiffLine>) {
    body == [] || ((MarkedFirst(body) ==> Chop(body[0].text) == body[0].text) && Idle(body[1..]))
  }

  predicate AllIdle(hs: seq<Hunk>) {
    hs == [] || (Idle(hs[0].body) && AllIdle(hs[1..]))
  }

  /** The applier does with a patch what it would do with the patch its markers mean. */
  predicate Honoured(lines: seq<string>, patch: seq<string>, hs: seq<Hunk>) {
    var r := ApplyLines(lines, patch);
    var meant := ApplyLines(lines, RenderHunks(MeantAll(hs)));
    r == meant || (r.Failure? && meant.Failure?)
  }

  // ---- One hunk ----

  lemma {:induction false} MeantLengths(body: seq<DiffLine>)
    ensures |Old(Meant(body))| == |Old(body)| && |New(Meant(body))| == |New(body)|
  {
    if body != [] {
      MeantLengths(body[1..]);
      MeantUnfold(body);
    }
  }

  /** The first line as its marker, if it has one, means it. */
  function MeantFirst(body: seq<DiffLine>): string
    requires body != []
  {
    if MarkedFirst(body) then Chop(body[0].text) else body[0].text
  }

  lemma {:induction false} MeantUnfold(body: seq<DiffLine>)
    requires body != []
    ensures Old(Meant(body)) == (if InOld(body[0]) then [MeantFirst(body)] else []) + Old(Meant(body[1..]))
    ensures New(Meant(body)) == (if InNew(body[0]) then [MeantFirst(body)] else []) + New(Meant(body[1..]))
  {
    if body[0].Marker? {
      assert [] + Old(Meant(body[1..])) == Old(Meant(body[1..])) && [] + New(Meant(body[1..])) == New(Meant(body[1..]));
    } else {
      assert Meant(body)[1..] == Meant(body[1..]);
    }
  }

  lemma ConsEqual(x: string, a: seq<string>, y: string, b: seq<string>)
    ensures [x] + a == [y] + b <==> x == y && a == b
  {
    if [x] + a == [y] + b {
      assert ([x] + a)[0] == ([y] + b)[0] && ([x] + a)[1..] == ([y] + b)[1..];
    }
  }

  lemma {:induction false} NewUnfold(body: seq<DiffLine>)
    requires body != []
    ensures New(body) == (if InNew(body[0]) then [body[0].text] else []) + New(body[1..])
  {
  }

  lemma {:induction false} OldKept(body: seq<DiffLine>)
    requires body != []
    ensures Old(Meant(body)) == Old(body) <==>
              (InOld(body[0]) ==> MeantFirst(body) == body[0].text) && Old(Meant(body[1..])) == Old(body[1..])
  {
    MeantUnfold(body);
    OldUnfold(body);
    if InOld(body[0]) {
      ConsEqual(MeantFirst(body), Old(Meant(body[1..])), body[0].text, Old(body[1..]));
    } else {
      assert [] + Old(Meant(body[1..])) == Old(Meant(body[1..]));
    }
  }

  lemma {:induction false} NewKept(body: seq<DiffLine>)
    requires body != []
    ensures New(Meant(body)) == New(body) <==>
              (InNew(body[0]) ==> MeantFirst(body) == body[0].text) && New(Meant(body[1..])) == New(body[1..])
  {
    MeantUnfold(body);
    NewUnfold(body);
    if InNew(body[0]) {
      ConsEqual(MeantFirst(body), New(Meant(body[1..])), body[0].text, New(body[1..]));
    } else {
      assert [] + New(Meant(body[1..])) == New(Meant(body[1..])) && [] + New(body[1..]) == New(body[1..]);
    }
  }

  /** Markers change neither what a hunk expects nor what it leaves exactly when they have no newline to take away. */
  lemma {:induction false} IdleExactly(body: seq<DiffLine>)
    ensures Idle(body) <==> Old(Meant(body)) == Old(body) && New(Meant(body)) == New(body)
  {
    if body != [] {
      IdleExactly(body[1..]);
      OldKept(body);
      NewKept(body);
    }
  }

  // ---- Both patches accepted ----

  /** Two blocks of one length found in one place are one block. */
  lemma FoundTwice(lines: seq<string>, at: int, a: seq<string>, b: seq<string>)
    requires at >= -1 && |a| == |b| && BlockFound(lines, at, a) && BlockFound(lines, at, b)
    ensures a == b
  {
    if at == -1 && a != [] { assert a == [a[0]] + a[1..] && b == [b[0]] + b[1..]; }
  }

  /** Lists with equal ends: the middles decide. */
  lemma Cancel(a: seq<string>, b: seq<string>, c: seq<string>, d: seq<string>, e: seq<string>)
    requires |b| == |c| && |d| == |e|
    ensures a + b + d == a + c + e <==> b == c && d == e
  {
    var l, r := a + b + d, a + c + e;
    assert l[|a|..|a| + |b|] == b && r[|a|..|a| + |c|] == c;
    assert l[|a| + |b|..] == d && r[|a| + |c|..] == e;
  }

  /** Two lists of one length, equal exactly under a condition. */
  predicate Alike(code: seq<string>, meant: seq<string>, condition: bool) {
    |code| == |meant| && (code == meant <==> condition)
  }

  lemma AlikeAfter(front: seq<string>, a: seq<string>, b: seq<string>, code: seq<string>, meant: seq<string>,
                   condition: bool)
    requires |a| == |b| && Alike(code, meant, condition)
    ensures Alike(front + a + code, front + b + meant, a == b && condition)
  {
    Cancel(front, a, b, code, meant);
  }

  /** When a hunk fits as read and as meant, only its new lines can tell the two apart. */
  lemma {:induction false} HunkAlike(lines: seq<string>, h: Hunk)
    requires Fits(lines, h) && Fits(lines, MeantHunk(h))
    ensures |New(h.body)| == |New(MeantHunk(h).body)| && NextAt(h) == NextAt(MeantHunk(h))
    ensures New(h.body) == New(MeantHunk(h).body) <==> Idle(h.body)
  {
    MeantLengths(h.body);
    FoundTwice(lines, h.oldStart - 1, Old(h.body), Old(MeantHunk(h).body));
    IdleExactly(h.body);
  }

  lemma {:induction false} MeantStep(hs: seq<Hunk>)
    requires hs != []
    ensures MeantAll(hs)[0] == MeantHunk(hs[0]) && MeantAll(hs)[1..] == MeantAll(hs[1..])
  {
  }

  /** The two outputs from one hunk on, when the hunk differs in its new lines only. */
  lemma {:induction false} StepAlike(lines: seq<string>, at: int, h: Hunk, m: Hunk, hs: seq<Hunk>, ms: seq<Hunk>,
                                     condition: bool)
    requires h.oldStart == m.oldStart && |New(h.body)| == |New(m.body)| && NextAt(h) == NextAt(m)
    requires Alike(Assembled(lines, NextAt(h), hs), Assembled(lines, NextAt(m), ms), condition)
    ensures Alike(Assembled(lines, at, [h] + hs), Assembled(lines, at, [m] + ms),
                  New(h.body) == New(m.body) && condition)
  {
    AssembledCons(lines, at, h, hs);
    AssembledCons(lines, at, m, ms);
    AlikeAfter(Slice(lines, at, h.oldStart - 1), New(h.body), New(m.body), Assembled(lines, NextAt(h), hs),
               Assembled(lines, NextAt(m), ms), condition);
  }

  lemma {:induction false} AssembledAlike(lines: seq<string>, at: int, hs: seq<Hunk>)
    requires AllFit(lines, hs) && AllFit(lines, MeantAll(hs))
    ensures Alike(Assembled(lines, at, hs), Assembled(lines, at, MeantAll(hs)), AllIdle(hs))
    decreases |hs|
  {
    if hs != [] {
      MeantStep(hs);
      HunkAlike(lines, hs[0]);
      AssembledAlike(lines, NextAt(hs[0]), hs[1..]);
      StepAlike(lines, at, hs[0], MeantHunk(hs[0]), hs[1..], MeantAll(hs[1..]), AllIdle(hs[1..]));
      assert [hs[0]] + hs[1..] == hs;
    }
  }

  lemma {:induction false} IdleFits(lines: seq<string>, hs: seq<Hunk>)
    requires AllIdle(hs)
    ensures AllFit(lines, hs) <==> AllFit(lines, MeantAll(hs))
    ensures AllFit(lines, hs) ==> Assembled(lines, 0, hs) == Assembled(lines, 0, MeantAll(hs))
    decreases |hs|
  {
    FitsWhenIdle(lines, hs);
    if AllFit(lines, hs) { AssembledAlike(lines, 0, hs); }
  }

  lemma {:induction false} FitsWhenIdle(lines: seq<string>, hs: seq<Hunk>)
    requires AllIdle(hs)
    ensures AllFit(lines, hs) <==> AllFit(lines, MeantAll(hs))
    decreases |hs|
  {
    if hs != [] {
      MeantStep(hs);
      IdleExactly(hs[0].body);
      FitsWhenIdle(lines, hs[1..]);
    }
  }

  lemma {:induction false} MeantIsPatch(hs: seq<Hunk>)
    requires hs != []
    ensures IsPatch(RenderHunks(MeantAll(hs)), MeantAll(hs))
  {
    RenderedIsPatch([], MeantAll(hs));
    assert [] + RenderHunks(MeantAll(hs)) == RenderHunks(MeantAll(hs));
  }

  /**
   Skipping markers is right exactly when no marker follows a line with a newline, so that there is nothing to honour,
   or neither the patch as read nor the patch as meant finds its old lines, so that both are refused. Otherwise a patch
   for a file without a final newline is refused, or leaves a newline where there should be none.
   */
  lemma {:induction false} MarkersAreHonouredExactly(lines: seq<string>, patch: seq<string>, hs: seq<Hunk>)
    requires IsPatch(patch, hs)
    ensures Honoured(lines, patch, hs) <==>
              AllIdle(hs) || (!AllFit(lines, hs) && !AllFit(lines, MeantAll(hs)))
  {
    HunksApplyExactly(lines, patch, hs);
    MeantIsPatch(hs);
    HunksApplyExactly(lines, RenderHunks(MeantAll(hs)), MeantAll(hs));
    if AllFit(lines, hs) && AllFit(lines, MeantAll(hs)) { AssembledAlike(lines, 0, hs); }
    if AllIdle(hs) { IdleFits(lines, hs); }
  }

  lemma {:induction false} MeantStaysOrdered(hs: seq<Hunk>, from: nat)
    requires Ordered(hs, from)
    ensures Ordered(MeantAll(hs), from)
    decreases |hs|
  {
    if hs != [] {
      MeantStep(hs);
      MeantLengths(hs[0].body);
      MeantStaysOrdered(hs[1..], NextAt(hs[0]));
    }
  }

  /** The same for ordered hunks with old lines, against block replacement with the blocks the markers mean. */
  lemma {:induction false} MarkedBlocksExactly(lines: seq<string>, patch: seq<string>, hs: seq<Hunk>)
    requires IsPatch(patch, hs) && Ordered(hs, 0)
    ensures var r, ms := ApplyLines(lines, patch), MeantAll(hs);
            (if AllMatch(lines, ms) then r == Success(ReplaceBlocks(lines, ms)) else r.Failure?) <==>
              AllIdle(hs) || (!AllMatch(lines, hs) && !AllMatch(lines, ms))
  {
    MeantStaysOrdered(hs, 0);
    MarkersAreHonouredExactly(lines, patch, hs);
    MeantIsPatch(hs);
    RefinesBlockReplacement(lines, RenderHunks(MeantAll(hs)), MeantAll(hs));
    OrderedFit(lines, 0, hs);
    OrderedFit(lines, 0, MeantAll(hs));
  }

  // ---- How many characters ----

  lemma {:induction false} JoinLength(a: seq<string>, b: seq<string>)
    ensures |Join(a + b)| == |Join(a)| + |Join(b)|
  {
    if a == [] {
      assert a + b == b;
    } else {
      assert (a + b)[1..] == a[1..] + b;
      JoinLength(a[1..], b);
    }
  }

  /** Honouring markers only ever makes text shorter. */
  lemma {:induction false} MeantIsShorter(body: seq<DiffLine>)
    ensures |Join(New(Meant(body)))| <= |Join(New(body))|
    ensures New(Meant(body)) != New(body) ==> |Join(New(Meant(body)))| < |Join(New(body))|
  {
    if body != [] {
      MeantIsShorter(body[1..]);
      MeantUnfold(body);
      NewUnfold(body);
      NewKept(body);
      var first := if InNew(body[0]) then [body[0].text] else [];
      var meant := if InNew(body[0]) then [MeantFirst(body)] else [];
      JoinLength(first, New(body[1..]));
      JoinLength(meant, New(Meant(body[1..])));
      OneJoined(body[0].text);
      OneJoined(MeantFirst(body));
    }
  }

  lemma OneJoined(x: string)
    ensures Join([x]) == x
  {
    assert [x][1..] == [];
    assert x + "" == x;
  }
}
