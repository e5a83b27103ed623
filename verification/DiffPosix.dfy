/**
 Hunks with an empty old range. The POSIX.1-2008 `diff` utility ("Diff -u or -U Output Format") lets such a hunk name
 the line *after which* its lines go, 0 for the top of the file; the applier always subtracts one from the old start.
 This module says for every patch in order, markers included, exactly when the two readings agree.
 */
module DiffPosix {
  import opened Prelude
  import opened UnifiedDiff
  import opened DiffTheorems
  import opened DiffMarkers

  // ---- The POSIX reading ----

  predicate Inserts(h: Hunk) { Old(h.body) == [] }

  /** How many lines of the old file lie before the hunk's place. */
  function PosixAt(h: Hunk): int {
    if Inserts(h) then h.oldStart else h.oldStart - 1
  }

  function PosixEnd(h: Hunk): int {
    PosixAt(h) + |Old(h.body)|
  }

  /** The place exists, and the old lines are there. */
  predicate PosixFits(lines: seq<string>, h: Hunk) {
    if Inserts(h) then h.oldStart <= |lines| else h.oldStart >= 1 && OldBlockAt(lines, h)
  }

  predicate AllPosixFit(lines: seq<string>, hs: seq<Hunk>) {
    hs == [] || (PosixFits(lines, hs[0]) && AllPosixFit(lines, hs[1..]))
  }

  /** The file from line `from` on, with each hunk's old lines replaced by its new ones. */
  function Posix(lines: seq<string>, from: int, hs: seq<Hunk>): seq<string>
    decreases |hs|
  {
    if hs == [] then Slice(lines, from, |lines|)
    else Slice(lines, from, PosixAt(hs[0])) + New(hs[0].body) + Posix(lines, PosixEnd(hs[0]), hs[1..])
  }

  /** What a patch means, its markers honoured, or nothing when some hunk does not fit. */
  function PosixPatch(lines: seq<string>, hs: seq<Hunk>): Option<seq<string>> {
    if AllPosixFit(lines, MeantAll(hs)) then Some(Posix(lines, 0, MeantAll(hs))) else None
  }

  /** The applier does with a patch what POSIX means by it. */
  predicate Agrees(lines: seq<string>, patch: seq<string>, hs: seq<Hunk>) {
    var r := ApplyLines(lines, patch);
    match PosixPatch(lines, hs)
    case None => r.Failure?
    case Some(meant) => r == Success(meant)
  }

  /** Hunks in order, none at the top of the file. An insertion may touch a replacement before it, `touch`, where `diff`
      would have made one hunk of the two. */
  predicate InOrder(hs: seq<Hunk>, from: int, touch: bool := false) {
    hs == [] || (hs[0].oldStart >= 1
                 && (from < hs[0].oldStart || (touch && Inserts(hs[0]) && from == hs[0].oldStart))
                 && InOrder(hs[1..], PosixEnd(hs[0]), !Inserts(hs[0])))
  }

  /** Hunks in order, with a line between every insertion and the hunk before it. */
  predicate Apart(hs: seq<Hunk>, from: int) {
    hs == [] || (from < hs[0].oldStart && Apart(hs[1..], PosixEnd(hs[0])))
  }

  // ---- The condition ----

  predicate AllAre(added: seq<string>, x: string) {
    forall i :: 0 <= i < |added| ==> added[i] == x
  }

  /** An insertion after an existing line adds only copies of that line. */
  predicate AddsCopies(lines: seq<string>, h: Hunk) {
    1 <= h.oldStart <= |lines| && AllAre(New(h.body), lines[h.oldStart - 1])
  }

  predicate InsertionsAddCopies(lines: seq<string>, hs: seq<Hunk>) {
    hs == [] || ((Inserts(hs[0]) ==> AddsCopies(lines, hs[0])) && InsertionsAddCopies(lines, hs[1..]))
  }

  // ---- One insertion alone ----

  /** How many lines come out before the lines of an insertion with old start `s`. */
  function LandsAfter(n: nat, s: nat): (k: nat)
    ensures k <= n
  {
    if s > n then n else if s > 0 then s - 1 else if n > 0 then n - 1 else 0
  }

  /** Lines inserted after line `s` come out before it; inserted at the top, before the last line; inserted after a line
      that does not exist, at the end. */
  lemma {:induction false} EmptyOldRange(lines: seq<string>, patch: seq<string>, h: Hunk)
    requires IsPatch(patch, [h]) && Inserts(h)
    ensures var k := LandsAfter(|lines|, h.oldStart);
            ApplyLines(lines, patch) == Success(lines[..k] + New(h.body) + lines[k..])
  {
    HunksApplyExactly(lines, patch, [h]);
    OneAssembled(lines, h);
    SlicesAround(lines, h.oldStart);
  }

  lemma {:induction false} OneAssembled(lines: seq<string>, h: Hunk)
    requires Inserts(h)
    ensures AllFit(lines, [h])
    ensures Assembled(lines, 0, [h])
              == Slice(lines, 0, h.oldStart - 1) + New(h.body) + Slice(lines, h.oldStart - 1, |lines|)
  {
    assert [h][1..] == [];
    assert NextAt(h) == h.oldStart - 1;
  }

  lemma SlicesAround(lines: seq<string>, s: nat)
    ensures var k := LandsAfter(|lines|, s);
            Slice(lines, 0, s - 1) == lines[..k] && Slice(lines, s - 1, |lines|) == lines[k..]
  {
  }

  // ---- Lists ----

  lemma {:induction false} Rotation(added: seq<string>, x: string)
    ensures added + [x] == [x] + added <==> AllAre(added, x)
  {
    if added + [x] == [x] + added { AllEqual(added, x, 0); }
  }

  lemma {:induction false} AllEqual(added: seq<string>, x: string, i: nat)
    requires added + [x] == [x] + added && i <= |added|
    requires forall j :: 0 <= j < i ==> added[j] == x
    ensures AllAre(added, x)
    decreases |added| - i
  {
    if i < |added| {
      assert (added + [x])[i] == ([x] + added)[i];
      AllEqual(added, x, i + 1);
    }
  }

  // ---- From line 1 on ----

  /** The two readings of the rest of a patch. */
  predicate Compared(lines: seq<string>, from: int, hs: seq<Hunk>) {
    Alike(Assembled(lines, from, hs), Posix(lines, from, hs), InsertionsAddCopies(lines, hs))
  }

  lemma {:induction false} ReplacementCompared(lines: seq<string>, from: int, hs: seq<Hunk>)
    requires hs != [] && !Inserts(hs[0]) && Compared(lines, NextAt(hs[0]), hs[1..])
    ensures Compared(lines, from, hs)
  {
    assert PosixEnd(hs[0]) == NextAt(hs[0]) && PosixAt(hs[0]) == hs[0].oldStart - 1;
    AlikeAfter(Slice(lines, from, hs[0].oldStart - 1), New(hs[0].body), New(hs[0].body),
               Assembled(lines, NextAt(hs[0]), hs[1..]), Posix(lines, PosixEnd(hs[0]), hs[1..]),
               InsertionsAddCopies(lines, hs[1..]));
  }

  lemma SliceBack(lines: seq<string>, s: int, end: int)
    requires 1 <= s <= end <= |lines|
    ensures Slice(lines, s - 1, end) == [lines[s - 1]] + Slice(lines, s, end)
  {
  }

  lemma EmittedBack(lines: seq<string>, s: int, h: Hunk)
    requires 1 <= s < h.oldStart <= |lines| + 1
    ensures Emitted(lines, s - 1, h) == [lines[s - 1]] + Emitted(lines, s, h)
  {
    var end := h.oldStart - 1;
    SliceBack(lines, s, end);
    Associate([lines[s - 1]], Slice(lines, s, end), New(h.body));
  }

  predicate StartsAfter(lines: seq<string>, s: int, hs: seq<Hunk>) {
    hs == [] || s < hs[0].oldStart <= |lines| + 1
  }

  /** The source position one line back puts that line out once more. */
  lemma {:induction false} OneBack(lines: seq<string>, s: int, at: int, hs: seq<Hunk>)
    requires 1 <= s <= |lines| && at == s - 1 && StartsAfter(lines, s, hs)
    ensures Assembled(lines, at, hs) == [lines[at]] + Assembled(lines, s, hs)
  {
    if hs == [] {
      SliceBack(lines, s, |lines|);
    } else {
      EmittedBack(lines, s, hs[0]);
      Associate([lines[s - 1]], Emitted(lines, s, hs[0]), Assembled(lines, NextAt(hs[0]), hs[1..]));
    }
  }

  lemma {:induction false} BeforeOrAfter(kept: seq<string>, added: seq<string>, x: string,
                                         c: seq<string>, m: seq<string>, condition: bool)
    requires Alike(c, m, condition)
    ensures Alike(kept + added + ([x] + c), kept + [x] + added + m, AllAre(added, x) && condition)
  {
    assert kept + added + ([x] + c) == kept + (added + [x]) + c;
    assert kept + [x] + added + m == kept + ([x] + added) + m;
    Cancel(kept, added + [x], [x] + added, c, m);
    Rotation(added, x);
  }

  lemma SliceSnoc(lines: seq<string>, from: int, s: int)
    requires 0 <= from < s <= |lines|
    ensures Slice(lines, from, s) == Slice(lines, from, s - 1) + [lines[s - 1]]
  {
  }

  lemma {:induction false} PosixCons(lines: seq<string>, from: int, h: Hunk, rest: seq<Hunk>)
    ensures Posix(lines, from, [h] + rest)
              == Slice(lines, from, PosixAt(h)) + New(h.body) + Posix(lines, PosixEnd(h), rest)
  {
    assert ([h] + rest)[1..] == rest;
  }

  /** To the applier, the line an insertion is after comes behind it. */
  lemma {:induction false} InsertionAssembled(lines: seq<string>, from: int, h: Hunk, rest: seq<Hunk>)
    requires Inserts(h) && 1 <= h.oldStart <= |lines| && StartsAfter(lines, h.oldStart, rest)
    ensures Assembled(lines, from, [h] + rest) == Slice(lines, from, h.oldStart - 1) + New(h.body)
                                                  + ([lines[h.oldStart - 1]] + Assembled(lines, h.oldStart, rest))
  {
    AssembledCons(lines, from, h, rest);
    OneBack(lines, h.oldStart, NextAt(h), rest);
  }

  /** To POSIX, it comes before. */
  lemma {:induction false} InsertionPosix(lines: seq<string>, from: int, h: Hunk, rest: seq<Hunk>)
    requires Inserts(h) && 0 <= from < h.oldStart <= |lines|
    ensures Posix(lines, from, [h] + rest) == Slice(lines, from, h.oldStart - 1) + [lines[h.oldStart - 1]]
                                              + New(h.body) + Posix(lines, h.oldStart, rest)
  {
    assert PosixAt(h) == h.oldStart == PosixEnd(h);
    PosixCons(lines, from, h, rest);
    SliceSnoc(lines, from, h.oldStart);
  }

  lemma {:induction false} InsertionAlike(lines: seq<string>, from: int, h: Hunk, rest: seq<Hunk>, condition: bool)
    requires Inserts(h) && 0 <= from < h.oldStart <= |lines| && StartsAfter(lines, h.oldStart, rest)
    requires Alike(Assembled(lines, h.oldStart, rest), Posix(lines, h.oldStart, rest), condition)
    ensures Alike(Assembled(lines, from, [h] + rest), Posix(lines, from, [h] + rest),
                  AllAre(New(h.body), lines[h.oldStart - 1]) && condition)
  {
    InsertionAssembled(lines, from, h, rest);
    InsertionPosix(lines, from, h, rest);
    BeforeOrAfter(Slice(lines, from, h.oldStart - 1), New(h.body), lines[h.oldStart - 1],
                  Assembled(lines, h.oldStart, rest), Posix(lines, h.oldStart, rest), condition);
  }

  lemma {:induction false} InsertionCompared(lines: seq<string>, from: int, hs: seq<Hunk>)
    requires hs != [] && Inserts(hs[0]) && 0 <= from < hs[0].oldStart <= |lines|
    requires StartsAfter(lines, hs[0].oldStart, hs[1..]) && Compared(lines, hs[0].oldStart, hs[1..])
    ensures Compared(lines, from, hs)
  {
    InsertionAlike(lines, from, hs[0], hs[1..], InsertionsAddCopies(lines, hs[1..]));
    assert [hs[0]] + hs[1..] == hs;
  }

  lemma {:induction false} AllCompared(lines: seq<string>, from: int, hs: seq<Hunk>)
    requires 0 <= from && Apart(hs, from) && AllPosixFit(lines, hs)
    ensures Compared(lines, from, hs)
    decreases |hs|
  {
    if hs == [] {
    } else if Inserts(hs[0]) {
      AllCompared(lines, hs[0].oldStart, hs[1..]);
      InsertionCompared(lines, from, hs);
    } else {
      AllCompared(lines, NextAt(hs[0]), hs[1..]);
      ReplacementCompared(lines, from, hs);
    }
  }

  // ---- Insertions that touch the hunk before them ----

  predicate Longer(lines: seq<string>, from: int, hs: seq<Hunk>) {
    && |Assembled(lines, from, hs)| >= |Posix(lines, from, hs)|
    && (!Apart(hs, from) ==> |Assembled(lines, from, hs)| > |Posix(lines, from, hs)|)
  }

  lemma {:induction false} ReplacementLonger(lines: seq<string>, from: int, hs: seq<Hunk>)
    requires hs != [] && !Inserts(hs[0]) && from < hs[0].oldStart && Longer(lines, NextAt(hs[0]), hs[1..])
    ensures Longer(lines, from, hs)
  {
    assert PosixEnd(hs[0]) == NextAt(hs[0]) && PosixAt(hs[0]) == hs[0].oldStart - 1;
  }

  lemma SliceLength(lines: seq<string>, from: int, s: int)
    requires 0 <= from <= s && 1 <= s <= |lines|
    ensures |Slice(lines, from, s)| == s - from
    ensures |Slice(lines, from, s - 1)| == if from < s then s - 1 - from else 0
  {
  }

  /** The line an insertion is after comes out after it; if the hunk before has replaced that line, once too often. */
  lemma {:induction false} InsertionLengths(lines: seq<string>, from: int, hs: seq<Hunk>)
    requires hs != [] && Inserts(hs[0]) && 1 <= hs[0].oldStart <= |lines| && 0 <= from <= hs[0].oldStart
    requires StartsAfter(lines, hs[0].oldStart, hs[1..])
    ensures var s, k := hs[0].oldStart, |New(hs[0].body)|;
            && |Assembled(lines, from, hs)|
                 == (if from < s then s - from else 1) + k + |Assembled(lines, s, hs[1..])|
            && |Posix(lines, from, hs)| == s - from + k + |Posix(lines, s, hs[1..])|
  {
    var s := hs[0].oldStart;
    assert NextAt(hs[0]) == s - 1 && PosixEnd(hs[0]) == s == PosixAt(hs[0]);
    OneBack(lines, s, NextAt(hs[0]), hs[1..]);
    SliceLength(lines, from, s);
  }

  lemma {:induction false} InsertionLonger(lines: seq<string>, from: int, hs: seq<Hunk>)
    requires hs != [] && Inserts(hs[0]) && 1 <= hs[0].oldStart <= |lines| && 0 <= from <= hs[0].oldStart
    requires StartsAfter(lines, hs[0].oldStart, hs[1..]) && Longer(lines, hs[0].oldStart, hs[1..])
    ensures Longer(lines, from, hs)
  {
    InsertionLengths(lines, from, hs);
    assert PosixEnd(hs[0]) == hs[0].oldStart;
  }

  lemma {:induction false} AllLonger(lines: seq<string>, from: int, touch: bool, hs: seq<Hunk>)
    requires 0 <= from && InOrder(hs, from, touch) && AllPosixFit(lines, hs)
    ensures Longer(lines, from, hs)
    decreases |hs|
  {
    if hs != [] {
      AllLonger(lines, PosixEnd(hs[0]), !Inserts(hs[0]), hs[1..]);
      if Inserts(hs[0]) { InsertionLonger(lines, from, hs); } else { ReplacementLonger(lines, from, hs); }
    }
  }

  // ---- Patches without an insertion at the top ----

  lemma {:induction false} PosixFitsFit(lines: seq<string>, from: int, touch: bool, hs: seq<Hunk>)
    requires 0 <= from && InOrder(hs, from, touch)
    ensures AllPosixFit(lines, hs) ==> AllFit(lines, hs)
    ensures AllFit(lines, hs) && InsertionsAddCopies(lines, hs) ==> AllPosixFit(lines, hs)
    decreases |hs|
  {
    if hs != [] { PosixFitsFit(lines, PosixEnd(hs[0]), !Inserts(hs[0]), hs[1..]); }
  }

  lemma {:induction false} SameExactly(lines: seq<string>, hs: seq<Hunk>)
    requires InOrder(hs, 0) && AllPosixFit(lines, hs)
    ensures Assembled(lines, 0, hs) == Posix(lines, 0, hs) <==> Apart(hs, 0) && InsertionsAddCopies(lines, hs)
  {
    if Apart(hs, 0) {
      AllCompared(lines, 0, hs);
    } else {
      AllLonger(lines, 0, false, hs);
    }
  }

  // ---- Markers ----

  /** Markers with nothing to take away leave the POSIX reading as it is. */
  lemma {:induction false} IdleMeansTheSame(lines: seq<string>, from: int, hs: seq<Hunk>)
    requires AllIdle(hs)
    ensures AllPosixFit(lines, MeantAll(hs)) <==> AllPosixFit(lines, hs)
    ensures Posix(lines, from, MeantAll(hs)) == Posix(lines, from, hs)
    decreases |hs|
  {
    if hs != [] {
      IdleMeansTheSame(lines, PosixEnd(hs[0]), hs[1..]);
      IdleStep(lines, from, hs);
    }
  }

  lemma {:induction false} IdleStep(lines: seq<string>, from: int, hs: seq<Hunk>)
    requires hs != [] && Idle(hs[0].body)
    requires AllPosixFit(lines, MeantAll(hs[1..])) <==> AllPosixFit(lines, hs[1..])
    requires Posix(lines, PosixEnd(hs[0]), MeantAll(hs[1..])) == Posix(lines, PosixEnd(hs[0]), hs[1..])
    ensures AllPosixFit(lines, MeantAll(hs)) <==> AllPosixFit(lines, hs)
    ensures Posix(lines, from, MeantAll(hs)) == Posix(lines, from, hs)
  {
    MeantStep(hs);
    IdleExactly(hs[0].body);
    assert PosixAt(MeantHunk(hs[0])) == PosixAt(hs[0]) && PosixEnd(MeantHunk(hs[0])) == PosixEnd(hs[0]);
  }

  /** A patch that fits as read and as meant fits POSIX without its markers, where it leaves as many lines and, unless
      its markers are idle, more text. */
  predicate Heavier(lines: seq<string>, from: int, hs: seq<Hunk>) {
    && AllPosixFit(lines, hs)
    && |Posix(lines, from, MeantAll(hs))| == |Posix(lines, from, hs)|
    && |Join(Posix(lines, from, MeantAll(hs)))| <= |Join(Posix(lines, from, hs))|
    && (!AllIdle(hs) ==> |Join(Posix(lines, from, MeantAll(hs)))| < |Join(Posix(lines, from, hs))|)
  }

  lemma {:induction false} MeantFits(lines: seq<string>, h: Hunk)
    requires Fits(lines, h) && PosixFits(lines, MeantHunk(h))
    ensures PosixFits(lines, h) && PosixAt(MeantHunk(h)) == PosixAt(h) && PosixEnd(MeantHunk(h)) == PosixEnd(h)
    ensures |New(MeantHunk(h).body)| == |New(h.body)|
    ensures New(MeantHunk(h).body) == New(h.body) <==> Idle(h.body)
  {
    MeantLengths(h.body);
    if !Inserts(h) { FoundTwice(lines, h.oldStart - 1, Old(h.body), Old(MeantHunk(h).body)); }
    IdleExactly(h.body);
  }

  lemma PiecesJoined(a: seq<string>, b: seq<string>, c: seq<string>)
    ensures |Join(a + b + c)| == |Join(a)| + |Join(b)| + |Join(c)|
  {
    JoinLength(a, b);
    JoinLength(a + b, c);
  }

  lemma {:induction false} HeavierStep(lines: seq<string>, from: int, hs: seq<Hunk>)
    requires hs != [] && Fits(lines, hs[0]) && PosixFits(lines, MeantHunk(hs[0]))
    requires Heavier(lines, PosixEnd(hs[0]), hs[1..])
    ensures Heavier(lines, from, hs)
  {
    var h, m := hs[0], MeantHunk(hs[0]);
    MeantStep(hs);
    MeantFits(lines, h);
    MeantIsShorter(h.body);
    var kept := Slice(lines, from, PosixAt(h));
    PiecesJoined(kept, New(h.body), Posix(lines, PosixEnd(h), hs[1..]));
    PiecesJoined(kept, New(m.body), Posix(lines, PosixEnd(h), MeantAll(hs[1..])));
  }

  lemma {:induction false} AllHeavier(lines: seq<string>, from: int, hs: seq<Hunk>)
    requires AllFit(lines, hs) && AllPosixFit(lines, MeantAll(hs))
    ensures Heavier(lines, from, hs)
    decreases |hs|
  {
    if hs != [] {
      MeantStep(hs);
      AllHeavier(lines, PosixEnd(hs[0]), hs[1..]);
      HeavierStep(lines, from, hs);
    }
  }

  /** As much text as the patch would leave by POSIX without its markers. */
  lemma {:induction false} InsertionWeighs(lines: seq<string>, from: int, hs: seq<Hunk>)
    requires hs != [] && Inserts(hs[0]) && 0 <= from < hs[0].oldStart <= |lines|
    requires StartsAfter(lines, hs[0].oldStart, hs[1..])
    requires |Join(Assembled(lines, hs[0].oldStart, hs[1..]))| == |Join(Posix(lines, hs[0].oldStart, hs[1..]))|
    ensures |Join(Assembled(lines, from, hs))| == |Join(Posix(lines, from, hs))|
  {
    InsertionAssembled(lines, from, hs[0], hs[1..]);
    InsertionPosix(lines, from, hs[0], hs[1..]);
    SameWeight(Slice(lines, from, hs[0].oldStart - 1), New(hs[0].body), [lines[hs[0].oldStart - 1]],
               Assembled(lines, hs[0].oldStart, hs[1..]), Posix(lines, hs[0].oldStart, hs[1..]));
    assert [hs[0]] + hs[1..] == hs;
  }

  lemma SameWeight(kept: seq<string>, added: seq<string>, x: seq<string>, code: seq<string>, meant: seq<string>)
    requires |Join(code)| == |Join(meant)|
    ensures |Join(kept + added + (x + code))| == |Join(kept + x + added + meant)|
  {
    PiecesJoined(kept, added, x + code);
    JoinLength(x, code);
    PiecesJoined(kept + x, added, meant);
    JoinLength(kept, x);
  }

  lemma {:induction false} ReplacementWeighs(lines: seq<string>, from: int, hs: seq<Hunk>)
    requires hs != [] && !Inserts(hs[0])
    requires |Join(Assembled(lines, NextAt(hs[0]), hs[1..]))| == |Join(Posix(lines, NextAt(hs[0]), hs[1..]))|
    ensures |Join(Assembled(lines, from, hs))| == |Join(Posix(lines, from, hs))|
  {
    assert PosixEnd(hs[0]) == NextAt(hs[0]) && PosixAt(hs[0]) == hs[0].oldStart - 1;
    JoinLength(Emitted(lines, from, hs[0]), Assembled(lines, NextAt(hs[0]), hs[1..]));
    JoinLength(Emitted(lines, from, hs[0]), Posix(lines, NextAt(hs[0]), hs[1..]));
  }

  lemma {:induction false} AllWeigh(lines: seq<string>, from: int, hs: seq<Hunk>)
    requires 0 <= from && Apart(hs, from) && AllPosixFit(lines, hs)
    ensures |Join(Assembled(lines, from, hs))| == |Join(Posix(lines, from, hs))|
    decreases |hs|
  {
    if hs == [] {
    } else if Inserts(hs[0]) {
      AllWeigh(lines, hs[0].oldStart, hs[1..]);
      InsertionWeighs(lines, from, hs);
    } else {
      AllWeigh(lines, NextAt(hs[0]), hs[1..]);
      ReplacementWeighs(lines, from, hs);
    }
  }

  /** When a marker has a newline to take away and both readings accept, they differ. */
  lemma {:induction false} MarkedDiffers(lines: seq<string>, hs: seq<Hunk>)
    requires InOrder(hs, 0) && AllFit(lines, hs) && AllPosixFit(lines, MeantAll(hs)) && !AllIdle(hs)
    ensures Assembled(lines, 0, hs) != Posix(lines, 0, MeantAll(hs))
  {
    AllHeavier(lines, 0, hs);
    if Apart(hs, 0) {
      AllWeigh(lines, 0, hs);
    } else {
      AllLonger(lines, 0, false, hs);
    }
  }

  // ---- Exactly when the two readings agree ----

  /** The condition for hunks that start at line 1 or later: no marker takes away a newline, and every insertion is
      after an existing line, which the hunk before has not taken, and adds only copies of it. */
  predicate Harmless(lines: seq<string>, hs: seq<Hunk>) {
    AllIdle(hs) && Apart(hs, 0) && InsertionsAddCopies(lines, hs)
  }

  /** Both readings refuse the patch. */
  predicate BothRefuse(lines: seq<string>, hs: seq<Hunk>) {
    !AllFit(lines, hs) && !AllPosixFit(lines, MeantAll(hs))
  }

  /**
   Patches in order whose hunks start at line 1 or later do what POSIX means by them exactly when both readings refuse
   them or the patch is harmless. Otherwise added lines come out one line early, or again with the line they are after,
   or after a line that does not exist, or with a newline too many; or old lines are looked for with or without one.
   */
  lemma {:induction false} InsertionsArePosixExactly(lines: seq<string>, patch: seq<string>, hs: seq<Hunk>)
    requires IsPatch(patch, hs) && InOrder(hs, 0)
    ensures Agrees(lines, patch, hs) <==> BothRefuse(lines, hs) || Harmless(lines, hs)
  {
    HunksApplyExactly(lines, patch, hs);
    if AllIdle(hs) {
      IdleMeansTheSame(lines, 0, hs);
      PosixFitsFit(lines, 0, false, hs);
      if AllPosixFit(lines, hs) { SameExactly(lines, hs); }
    } else if AllFit(lines, hs) && AllPosixFit(lines, MeantAll(hs)) {
      MarkedDiffers(lines, hs);
    }
  }

  // ---- At the top ----

  /** Everything but the last line. */
  function Front(lines: seq<string>): seq<string>
    requires lines != []
  {
    lines[..|lines| - 1]
  }

  /** Where the hunks after a top insertion start; without any, the last line is where the output goes on. */
  function RestStart(lines: seq<string>, rest: seq<Hunk>): nat {
    if rest == [] then |lines| else rest[0].oldStart
  }

  /** From position -1 the loop copies nothing more before the next hunk. */
  lemma {:induction false} FromMinusOne(lines: seq<string>, rest: seq<Hunk>)
    requires lines != [] && InOrder(rest, 0) && AllPosixFit(lines, rest)
    ensures 1 <= RestStart(lines, rest) <= |lines|
    ensures Assembled(lines, 0, rest) == lines[..RestStart(lines, rest) - 1] + Assembled(lines, -1, rest)
  {
    var n := |lines|;
    if rest == [] {
      assert Slice(lines, -1, n) == lines[n - 1..];
      assert lines == lines[..n - 1] + lines[n - 1..];
    } else {
      var s := rest[0].oldStart;
      assert Slice(lines, -1, s - 1) == [] && Slice(lines, 0, s - 1) == lines[..s - 1];
      assert Emitted(lines, -1, rest[0]) == New(rest[0].body);
      Associate(lines[..s - 1], New(rest[0].body), Assembled(lines, NextAt(rest[0]), rest[1..]));
    }
  }

  /** POSIX keeps the lines before the next hunk too. */
  lemma {:induction false} PosixFront(lines: seq<string>, rest: seq<Hunk>)
    requires lines != [] && InOrder(rest, 0) && AllPosixFit(lines, rest)
    ensures 1 <= RestStart(lines, rest) <= |lines|
    ensures lines[..RestStart(lines, rest) - 1] <= Posix(lines, 0, rest)
  {
    if rest == [] {
      assert Slice(lines, 0, |lines|) == lines;
    } else {
      assert Slice(lines, 0, PosixAt(rest[0])) == lines[..PosixAt(rest[0])];
    }
  }

  lemma {:induction false} TopCode(lines: seq<string>, h: Hunk, rest: seq<Hunk>)
    requires lines != [] && Inserts(h) && h.oldStart == 0
    ensures Assembled(lines, 0, [h] + rest) == Front(lines) + New(h.body) + Assembled(lines, -1, rest)
  {
    AssembledCons(lines, 0, h, rest);
    assert Slice(lines, 0, -1) == Front(lines);
  }

  lemma {:induction false} TopMeant(lines: seq<string>, h: Hunk, rest: seq<Hunk>)
    requires Inserts(h) && h.oldStart == 0
    ensures Posix(lines, 0, [h] + rest) == New(h.body) + Posix(lines, 0, rest)
  {
    assert ([h] + rest)[1..] == rest;
    assert Slice(lines, 0, 0) == [];
    assert [] + New(h.body) == New(h.body);
  }

  /** Two splits of two lists, of which the second parts are equally long. */
  lemma SplitEqual(a: seq<string>, b: seq<string>, c: seq<string>, d: seq<string>)
    requires |b| == |d|
    ensures (a + b == c + d) <==> (a == c && b == d)
  {
    if a + b == c + d {
      assert |a| == |c|;
      assert a == (a + b)[..|a|] && c == (c + d)[..|a|];
      assert b == (a + b)[|a|..] && d == (c + d)[|a|..];
    }
  }

  /** What it takes for an insertion at the top to be right: an empty file, or nothing to replace before the last line
      and added lines that can change places with all lines but the last. */
  predicate TopHarmless(lines: seq<string>, added: seq<string>, rest: seq<Hunk>) {
    lines == [] || (RestStart(lines, rest) == |lines| && Front(lines) + added == added + Front(lines))
  }

  lemma {:induction false} TopApart(lines: seq<string>, h: Hunk, rest: seq<Hunk>)
    requires lines != [] && Inserts(h) && h.oldStart == 0
    requires InOrder(rest, 0) && Apart(rest, 0) && AllPosixFit(lines, rest)
    ensures (Assembled(lines, 0, [h] + rest) == Posix(lines, 0, [h] + rest))
              <==> TopHarmless(lines, New(h.body), rest) && InsertionsAddCopies(lines, rest)
  {
    var before := lines[..RestStart(lines, rest) - 1];
    TopCode(lines, h, rest);
    TopMeant(lines, h, rest);
    FromMinusOne(lines, rest);
    PosixFront(lines, rest);
    AllCompared(lines, 0, rest);
    TopLists(Front(lines), New(h.body), before, Assembled(lines, -1, rest), Posix(lines, 0, rest));
  }

  /** An insertion at the top lands before the last line instead, and what follows it goes on from the next hunk. */
  lemma {:induction false} TopCompared(lines: seq<string>, h: Hunk, rest: seq<Hunk>)
    requires lines != [] && Inserts(h) && h.oldStart == 0 && InOrder(rest, 0) && AllPosixFit(lines, rest)
    ensures (Assembled(lines, 0, [h] + rest) == Posix(lines, 0, [h] + rest))
              <==> TopHarmless(lines, New(h.body), rest) && Apart(rest, 0) && InsertionsAddCopies(lines, rest)
  {
    if Apart(rest, 0) {
      TopApart(lines, h, rest);
    } else {
      TopLonger(lines, h, rest);
    }
  }

  lemma TopLists(front: seq<string>, added: seq<string>, before: seq<string>, code: seq<string>, meant: seq<string>)
    requires before <= meant && |before + code| == |meant| && before <= front
    ensures (front + added + code == added + meant)
              <==> |before| == |front| && front + added == added + front && before + code == meant
  {
    var after := meant[|before|..];
    assert meant == before + after;
    SplitEqual(before, code, before, after);
    Associate(added, before, after);
    SplitEqual(front + added, code, added + before, after);
    if |before| == |front| { assert before == front; }
  }

  lemma {:induction false} TopOfEmpty(h: Hunk)
    requires Inserts(h) && h.oldStart == 0
    ensures Assembled([], 0, [h]) == New(h.body) == Posix([], 0, [h])
  {
  }

  lemma {:induction false} NothingFitsInEmpty(rest: seq<Hunk>)
    requires InOrder(rest, 0) && AllPosixFit([], rest)
    ensures rest == []
  {
  }

  lemma {:induction false} TopSameExactly(lines: seq<string>, h: Hunk, rest: seq<Hunk>)
    requires Inserts(h) && h.oldStart == 0 && InOrder(rest, 0) && AllPosixFit(lines, rest)
    ensures (Assembled(lines, 0, [h] + rest) == Posix(lines, 0, [h] + rest))
              <==> TopHarmless(lines, New(h.body), rest) && Apart(rest, 0) && InsertionsAddCopies(lines, rest)
  {
    if lines == [] {
      NothingFitsInEmpty(rest);
      TopOfEmpty(h);
      assert [h] + rest == [h];
    } else {
      TopCompared(lines, h, rest);
    }
  }

  lemma {:induction false} WithTop(lines: seq<string>, h: Hunk, rest: seq<Hunk>)
    requires Inserts(h) && h.oldStart == 0
    ensures AllFit(lines, [h] + rest) <==> AllFit(lines, rest)
    ensures AllPosixFit(lines, [h] + rest) <==> AllPosixFit(lines, rest)
    ensures MeantAll([h] + rest) == [MeantHunk(h)] + MeantAll(rest)
    ensures AllIdle([h] + rest) == (Idle(h.body) && AllIdle(rest))
    ensures Inserts(MeantHunk(h))
    ensures AllPosixFit(lines, MeantAll([h] + rest)) <==> AllPosixFit(lines, MeantAll(rest))
  {
    assert ([h] + rest)[1..] == rest;
    MeantLengths(h.body);
    assert MeantAll([h] + rest)[1..] == MeantAll(rest);
  }

  lemma {:induction false} TopMarkedDiffers(lines: seq<string>, h: Hunk, rest: seq<Hunk>)
    requires Inserts(h) && h.oldStart == 0 && InOrder(rest, 0) && AllFit(lines, rest)
    requires AllPosixFit(lines, MeantAll(rest)) && !AllIdle([h] + rest)
    ensures Assembled(lines, 0, [h] + rest) != Posix(lines, 0, MeantAll([h] + rest))
  {
    var hs := [h] + rest;
    WithTop(lines, h, rest);
    AllHeavier(lines, 0, hs);
    if lines == [] {
      NothingFitsInEmpty(rest);
      TopOfEmpty(h);
      assert hs == [h];
    } else if Apart(rest, 0) && RestStart(lines, rest) == |lines| {
      TopWeighs(lines, h, rest);
    } else {
      TopLonger(lines, h, rest);
    }
  }

  lemma {:induction false} TopWeighs(lines: seq<string>, h: Hunk, rest: seq<Hunk>)
    requires lines != [] && Inserts(h) && h.oldStart == 0 && InOrder(rest, 0) && Apart(rest, 0)
    requires AllPosixFit(lines, rest) && RestStart(lines, rest) == |lines|
    ensures |Join(Assembled(lines, 0, [h] + rest))| == |Join(Posix(lines, 0, [h] + rest))|
  {
    TopCode(lines, h, rest);
    TopMeant(lines, h, rest);
    FromMinusOne(lines, rest);
    AllWeigh(lines, 0, rest);
    PiecesJoined(Front(lines), New(h.body), Assembled(lines, -1, rest));
    JoinLength(Front(lines), Assembled(lines, -1, rest));
    JoinLength(New(h.body), Posix(lines, 0, rest));
  }

  /** With something to replace before the last line, or an insertion that touches the hunk before it, there are too
      many lines. */
  lemma {:induction false} TopLonger(lines: seq<string>, h: Hunk, rest: seq<Hunk>)
    requires lines != [] && Inserts(h) && h.oldStart == 0 && InOrder(rest, 0) && AllPosixFit(lines, rest)
    requires !Apart(rest, 0) || RestStart(lines, rest) != |lines|
    ensures |Assembled(lines, 0, [h] + rest)| > |Posix(lines, 0, [h] + rest)|
  {
    TopCode(lines, h, rest);
    TopMeant(lines, h, rest);
    FromMinusOne(lines, rest);
    AllLonger(lines, 0, false, rest);
  }

  /**
   Patches in order that begin with an insertion at the top of the file, old start 0, do what POSIX means by them
   exactly when both readings refuse them, or the top insertion and the rest are harmless. Otherwise the top lines come
   out before the last line, and what lies before the next hunk is lost or repeated.
   */
  lemma {:induction false} TopInsertionIsPosixExactly(lines: seq<string>, patch: seq<string>, h: Hunk,
                                                      rest: seq<Hunk>)
    requires IsPatch(patch, [h] + rest) && Inserts(h) && h.oldStart == 0 && InOrder(rest, 0)
    ensures Agrees(lines, patch, [h] + rest) <==>
              || BothRefuse(lines, rest)
              || (Idle(h.body) && TopHarmless(lines, New(h.body), rest) && Harmless(lines, rest))
  {
    HunksApplyExactly(lines, patch, [h] + rest);
    WithTop(lines, h, rest);
    if AllIdle([h] + rest) {
      IdleMeansTheSame(lines, 0, [h] + rest);
      PosixFitsFit(lines, 0, false, rest);
      if AllPosixFit(lines, rest) { TopSameExactly(lines, h, rest); }
    } else if AllFit(lines, rest) && AllPosixFit(lines, MeantAll(rest)) {
      TopMarkedDiffers(lines, h, rest);
    }
  }
}
