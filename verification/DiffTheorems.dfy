/** What applying a unified diff means, and that a diff applied backwards undoes it. */
module DiffTheorems {
  import opened Prelude
  import opened UnifiedDiff

  /** A line of a hunk; a marker, such as "\\ No newline at end of file", says something of the line before it. */
  datatype DiffLine = Context(text: string) | Delete(text: string) | Add(text: string) | Marker(text: string)

  predicate InOld(d: DiffLine) { d.Context? || d.Delete? }

  predicate InNew(d: DiffLine) { d.Context? || d.Add? }

  /** One hunk: 1-based starts in the old and the new file, the line counts its header claims, if any, what follows the
      header's last `@@`, line end included, and its lines. */
  datatype Hunk = Hunk(
    oldStart: nat,
    oldCount: Option<nat>,
    newStart: nat,
    newCount: Option<nat>,
    heading: string,
    body: seq<DiffLine>
  )

  /** The lines the hunk expects. */
  function Old(body: seq<DiffLine>): seq<string> {
    if body == [] then [] else (if InOld(body[0]) then [body[0].text] else []) + Old(body[1..])
  }

  /** The lines it leaves. */
  function New(body: seq<DiffLine>): seq<string> {
    if body == [] then [] else (if InNew(body[0]) then [body[0].text] else []) + New(body[1..])
  }

  // ---- Patches as text ----

  function RenderLine(d: DiffLine): string {
    match d
    case Context(text) => " " + text
    case Delete(text) => "-" + text
    case Add(text) => "+" + text
    case Marker(text) => "\\" + text
  }

  function RenderBody(body: seq<DiffLine>): (lines: seq<string>)
    ensures |lines| == |body|
  {
    seq(|body|, i requires 0 <= i < |body| => RenderLine(body[i]))
  }

  const DIGITS := "0123456789"

  function Decimal(n: nat): string {
    if n < 10 then [DIGITS[n]] else Decimal(n / 10) + [DIGITS[n % 10]]
  }

  function RenderCount(count: Option<nat>): string {
    match count
    case None => ""
    case Some(n) => "," + Decimal(n)
  }

  function RenderHeader(h: Hunk): string {
    "@@ -" + Decimal(h.oldStart)
    + (RenderCount(h.oldCount) + (" +" + Decimal(h.newStart) + (RenderCount(h.newCount) + (" @@" + h.heading))))
  }

  function RenderHunk(h: Hunk): (lines: seq<string>)
    ensures lines != []
  {
    [RenderHeader(h)] + RenderBody(h.body)
  }

  function RenderHunks(hs: seq<Hunk>): seq<string> {
    if hs == [] then [] else RenderHunk(hs[0]) + RenderHunks(hs[1..])
  }

  /** A patch: lines before the first hunk, such as file names, then the hunks. */
  function PatchText(preamble: seq<string>, hs: seq<Hunk>): string {
    Join(preamble + RenderHunks(hs))
  }

  // ---- Well-formed patches ----

  /** Hunks in order and apart, each with at least one old line. */
  predicate Ordered(hs: seq<Hunk>, from: nat) {
    hs == [] || (from < hs[0].oldStart && Old(hs[0].body) != [] && Ordered(hs[1..], NextAt(hs[0])))
  }

  /** New starts are old starts moved by what earlier hunks added and removed. */
  predicate Consistent(hs: seq<Hunk>, shift: int) {
    hs == [] || (hs[0].newStart == hs[0].oldStart + shift
                 && Consistent(hs[1..], shift + |New(hs[0].body)| - |Old(hs[0].body)|))
  }

  predicate AllHaveNew(hs: seq<Hunk>) {
    hs == [] || (New(hs[0].body) != [] && AllHaveNew(hs[1..]))
  }

  // ---- Block replacement ----

  /** `block` stands in the file at position `at`. */
  predicate BlockAt(lines: seq<string>, at: nat, block: seq<string>) {
    at + |block| <= |lines| && lines[at..at + |block|] == block
  }

  /** The old block of a hunk is in the file where the hunk says. */
  predicate OldBlockAt(lines: seq<string>, h: Hunk)
    requires h.oldStart >= 1
  {
    BlockAt(lines, h.oldStart - 1, Old(h.body))
  }

  predicate AllMatch(lines: seq<string>, hs: seq<Hunk>) {
    hs == [] || (hs[0].oldStart >= 1 && OldBlockAt(lines, hs[0]) && AllMatch(lines, hs[1..]))
  }

  /** Replacing blocks in place, the last first so that earlier positions stay put. */
  function ReplaceBlocks(lines: seq<string>, hs: seq<Hunk>): seq<string>
  {
    if hs == [] then lines
    else
      var later := ReplaceBlocks(lines, hs[1..]);
      var s, n := hs[0].oldStart - 1, |Old(hs[0].body)|;
      if 0 <= s && s + n <= |later| then later[..s] + New(hs[0].body) + later[s + n..] else later
  }

  // ---- Any patch at all: where its old lines must be, and what it then yields ----

  /** The line the loop reads at position `at`; position -1, from a hunk that starts at line 0, is the last line. */
  predicate LineIs(lines: seq<string>, at: int, x: string)
    requires at >= -1
  {
    if at >= 0 then at < |lines| && lines[at] == x else lines != [] && lines[|lines| - 1] == x
  }

  /** The loop finds `block` from position `at` on; an empty block is found anywhere. */
  predicate BlockFound(lines: seq<string>, at: int, block: seq<string>)
    requires at >= -1
  {
    block == [] || (if at >= 0 then BlockAt(lines, at, block)
                    else LineIs(lines, at, block[0]) && BlockAt(lines, 0, block[1..]))
  }

  predicate Fits(lines: seq<string>, h: Hunk) {
    BlockFound(lines, h.oldStart - 1, Old(h.body))
  }

  predicate AllFit(lines: seq<string>, hs: seq<Hunk>) {
    hs == [] || (Fits(lines, hs[0]) && AllFit(lines, hs[1..]))
  }

  /** What a hunk puts out when the source position is `at`. */
  function Emitted(lines: seq<string>, at: int, h: Hunk): seq<string> {
    Slice(lines, at, h.oldStart - 1) + New(h.body)
  }

  /** The source position after a hunk. */
  function NextAt(h: Hunk): int {
    h.oldStart - 1 + |Old(h.body)|
  }

  /** What the loop puts out from source position `at` on: before each hunk the lines up to it, by Python's slicing,
      then its new lines; after the last hunk the lines that follow it. Nothing compares one hunk's position with
      another's. */
  function Assembled(lines: seq<string>, at: int, hs: seq<Hunk>): seq<string>
    decreases |hs|
  {
    if hs == [] then Slice(lines, at, |lines|)
    else Emitted(lines, at, hs[0]) + Assembled(lines, NextAt(hs[0]), hs[1..])
  }

  predicate Mismatched<T>(r: Result<T, DiffError>) {
    r.Failure? && r.error in {ContextMismatch, DeleteMismatch}
  }

  /** A refusal: a mismatch, or Python's own error for position -1 of an empty file. */
  predicate Refused<T>(lines: seq<string>, r: Result<T, DiffError>) {
    Mismatched(r) || (lines == [] && r == Failure(IndexError))
  }

  // ---- One body ----

  lemma BlockAtStep(lines: seq<string>, at: nat, x: string, rest: seq<string>)
    ensures BlockAt(lines, at, [x] + rest) <==> at < |lines| && lines[at] == x && BlockAt(lines, at + 1, rest)
  {
    var block := [x] + rest;
    if at + |block| <= |lines| {
      assert lines[at..at + |block|] == [lines[at]] + lines[at + 1..at + 1 + |rest|];
      assert block[1..] == rest && lines[at..at + |block|][1..] == lines[at + 1..at + 1 + |rest|];
    }
  }

  lemma BlockStep(lines: seq<string>, at: int, x: string, rest: seq<string>)
    requires at >= -1
    ensures BlockFound(lines, at, [x] + rest) <==> LineIs(lines, at, x) && BlockFound(lines, at + 1, rest)
  {
    if at >= 0 {
      BlockAtStep(lines, at, x, rest);
    } else {
      assert ([x] + rest)[1..] == rest;
    }
  }

  lemma RenderedStep(body: seq<DiffLine>)
    requires body != []
    ensures RenderBody(body)[0] == RenderLine(body[0])
    ensures RenderBody(body)[1..] == RenderBody(body[1..])
  {
  }

  lemma RenderedLine(d: DiffLine)
    ensures RenderLine(d) != "" && RenderLine(d)[1..] == d.text
    ensures RenderLine(d)[0] == match d
                                case Context(_) => ' '
                                case Delete(_) => '-'
                                case Add(_) => '+'
                                case Marker(_) => '\\'
  {
  }

  /** What a rendered line does. */
  lemma LineExact(original: seq<string>, out: seq<string>, src: int, d: DiffLine)
    requires src >= -1
    ensures var r := ApplyLine(original, State(out, src), RenderLine(d));
            if !InOld(d) then r == Success(State(Emit(out, d), src))
            else if LineIs(original, src, d.text) then r == Success(State(Emit(out, d), src + 1))
            else Refused(original, r) && (src >= 0 ==> Mismatched(r))
  {
    RenderedLine(d);
  }

  lemma {:induction false} BodyUnfold(original: seq<string>, st: State, body: seq<DiffLine>)
    requires body != []
    ensures ApplyBody(original, st, RenderBody(body)) ==
              match ApplyLine(original, st, RenderLine(body[0]))
              case Failure(e) => Failure(e)
              case Success(next) => ApplyBody(original, next, RenderBody(body[1..]))
  {
    RenderedStep(body);
  }

  /** The output after a line: only lines kept or added come out. */
  function Emit(out: seq<string>, d: DiffLine): seq<string> {
    if InNew(d) then out + [d.text] else out
  }

  lemma {:induction false} NewStep(out: seq<string>, body: seq<DiffLine>)
    requires body != []
    ensures out + New(body) == Emit(out, body[0]) + New(body[1..])
  {
    if InNew(body[0]) {
      Associate(out, [body[0].text], New(body[1..]));
    } else {
      assert New(body) == New(body[1..]);
    }
  }

  lemma Associate(a: seq<string>, b: seq<string>, c: seq<string>)
    ensures a + b + c == a + (b + c)
  {
  }

  /** Success exactly when the old block is found, with this output. */
  predicate Yields(original: seq<string>, src: int, block: seq<string>, output: seq<string>,
                   r: Result<State, DiffError>)
    requires src >= -1
  {
    if BlockFound(original, src, block) then r == Success(State(output, src + |block|))
    else Refused(original, r) && (src >= 0 ==> Mismatched(r))
  }

  /** A body applied at `src` succeeds exactly when its old block is there, and then emits its new block. */
  predicate Exact(original: seq<string>, out: seq<string>, src: int, body: seq<DiffLine>)
    requires src >= -1
  {
    Yields(original, src, Old(body), out + New(body), ApplyBody(original, State(out, src), RenderBody(body)))
  }

  lemma OldUnfold(body: seq<DiffLine>)
    requires body != []
    ensures !InOld(body[0]) ==> Old(body) == Old(body[1..])
    ensures InOld(body[0]) ==> Old(body) == [body[0].text] + Old(body[1..])
  {
  }

  /** A first line that is not looked for, or found, is passed over. */
  lemma {:induction false} PassOver(original: seq<string>, out: seq<string>, src: int, body: seq<DiffLine>)
    requires src >= -1 && body != [] && (InOld(body[0]) ==> LineIs(original, src, body[0].text))
    ensures var next := if InOld(body[0]) then src + 1 else src;
            ApplyBody(original, State(out, src), RenderBody(body))
              == ApplyBody(original, State(Emit(out, body[0]), next), RenderBody(body[1..]))
  {
    BodyUnfold(original, State(out, src), body);
    LineExact(original, out, src, body[0]);
  }

  lemma {:induction false} ExactPass(original: seq<string>, out: seq<string>, src: int, body: seq<DiffLine>)
    requires src >= -1 && body != [] && !InOld(body[0]) && Exact(original, Emit(out, body[0]), src, body[1..])
    ensures Exact(original, out, src, body)
  {
    PassOver(original, out, src, body);
    NewStep(out, body);
    OldUnfold(body);
  }

  lemma TakeYields(original: seq<string>, src: int, x: string, rest: seq<string>, output: seq<string>,
                   r: Result<State, DiffError>)
    requires src >= -1 && LineIs(original, src, x) && Yields(original, src + 1, rest, output, r)
    ensures Yields(original, src, [x] + rest, output, r)
  {
    BlockStep(original, src, x, rest);
  }

  lemma {:induction false} ExactTake(original: seq<string>, out: seq<string>, src: int, body: seq<DiffLine>)
    requires src >= -1 && body != [] && InOld(body[0]) && LineIs(original, src, body[0].text)
    requires Exact(original, Emit(out, body[0]), src + 1, body[1..])
    ensures Exact(original, out, src, body)
  {
    PassOver(original, out, src, body);
    NewStep(out, body);
    OldUnfold(body);
    TakeYields(original, src, body[0].text, Old(body[1..]), out + New(body),
               ApplyBody(original, State(out, src), RenderBody(body)));
  }

  lemma {:induction false} ExactMiss(original: seq<string>, out: seq<string>, src: int, body: seq<DiffLine>)
    requires src >= -1 && body != [] && InOld(body[0]) && !LineIs(original, src, body[0].text)
    ensures Exact(original, out, src, body)
  {
    BodyUnfold(original, State(out, src), body);
    LineExact(original, out, src, body[0]);
    OldUnfold(body);
    BlockStep(original, src, body[0].text, Old(body[1..]));
  }

  lemma {:induction false} ExactEmpty(original: seq<string>, out: seq<string>, src: int)
    requires src >= -1
    ensures Exact(original, out, src, [])
  {
    assert out + New([]) == out;
  }

  lemma {:induction false} BodyExact(original: seq<string>, out: seq<string>, src: int, body: seq<DiffLine>)
    requires src >= -1
    ensures Exact(original, out, src, body)
    decreases |body|
  {
    if body == [] {
      ExactEmpty(original, out, src);
    } else if !InOld(body[0]) {
      BodyExact(original, Emit(out, body[0]), src, body[1..]);
      ExactPass(original, out, src, body);
    } else if LineIs(original, src, body[0].text) {
      BodyExact(original, Emit(out, body[0]), src + 1, body[1..]);
      ExactTake(original, out, src, body);
    } else {
      ExactMiss(original, out, src, body);
    }
  }

  // ---- Headers ----

  lemma DigitChar(n: nat)
    requires n < 10
    ensures IsDigit(DIGITS[n]) && DigitValue(DIGITS[n]) == n
  {
    assert DIGITS[0] == '0' && DIGITS[1] == '1' && DIGITS[2] == '2' && DIGITS[3] == '3' && DIGITS[4] == '4';
  }

  lemma {:induction false} DecimalParses(n: nat)
    ensures Decimal(n) != "" && (forall i :: 0 <= i < |Decimal(n)| ==> IsDigit(Decimal(n)[i]))
    ensures Number(Decimal(n)) == n
  {
    var d := Decimal(n);
    DigitChar(n % 10);
    if n >= 10 {
      DecimalParses(n / 10);
      assert d[..|d| - 1] == Decimal(n / 10);
    } else {
      assert d[..0] == "";
    }
  }

  lemma {:induction false} CountDigits(digits: string, rest: string)
    requires forall i :: 0 <= i < |digits| ==> IsDigit(digits[i])
    requires rest == "" || !IsDigit(rest[0])
    ensures DigitCount(digits + rest) == |digits|
  {
    var s := digits + rest;
    if digits == "" {
      assert s == rest;
    } else {
      CountDigits(digits[1..], rest);
      assert s[1..] == digits[1..] + rest && s[0] == digits[0];
    }
  }

  predicate IsNumeral(s: string) {
    s != "" && forall i :: 0 <= i < |s| ==> IsDigit(s[i])
  }

  lemma AfterDigits(digits: string, rest: string)
    requires IsNumeral(digits) && " " <= rest
    ensures AfterCount("," + digits + rest) == rest
  {
    var s := "," + digits + rest;
    CountDigits(digits, rest);
    assert s[1..] == digits + rest;
    assert s[1 + |digits|..] == rest;
  }

  lemma AfterRenderedCount(count: Option<nat>, rest: string)
    requires " " <= rest
    ensures AfterCount(RenderCount(count) + rest) == rest
  {
    match count
    case None => assert RenderCount(count) + rest == rest;
    case Some(n) =>
      DecimalParses(n);
      AfterDigits(Decimal(n), rest);
  }

  lemma CountThenSpace(count: Option<nat>, rest: string)
    requires " " <= rest
    ensures RenderCount(count) + rest != "" && !IsDigit((RenderCount(count) + rest)[0])
  {
    assert RenderCount(None) + rest == rest;
  }

  lemma {:induction false} StartRead(prefix: string, digits: string, tail: string)
    requires IsNumeral(digits) && tail != "" && !IsDigit(tail[0])
    ensures ReadStart(prefix, prefix + digits + tail) == Some((Number(digits), AfterCount(tail)))
  {
    var s := prefix + digits + tail;
    CountDigits(digits, tail);
    assert s[|prefix|..] == digits + tail;
    assert s[|prefix|..|prefix| + |digits|] == digits && s[|prefix| + |digits|..] == tail;
  }

  lemma {:induction false} StartAndCount(prefix: string, digits: string, count: Option<nat>, rest: string)
    requires IsNumeral(digits) && " " <= rest
    ensures ReadStart(prefix, prefix + digits + (RenderCount(count) + rest)) == Some((Number(digits), rest))
  {
    CountThenSpace(count, rest);
    StartRead(prefix, digits, RenderCount(count) + rest);
    AfterRenderedCount(count, rest);
  }

  /** A rendered header is read back as the old start it spells, whatever its counts and its heading say. */
  lemma HeaderParses(h: Hunk)
    ensures ParseHeader(RenderHeader(h)) == Some(h.oldStart)
  {
    var end := " @@" + h.heading;
    var afterOld := " +" + Decimal(h.newStart) + (RenderCount(h.newCount) + end);
    assert " @@" <= end && " " <= end && " " <= afterOld;
    DecimalParses(h.oldStart);
    DecimalParses(h.newStart);
    StartAndCount(" +", Decimal(h.newStart), h.newCount, end);
    StartAndCount("@@ -", Decimal(h.oldStart), h.oldCount, afterOld);
  }

  // ---- Applying structured hunks ----

  function RenderedSections(hs: seq<Hunk>): (sections: seq<seq<string>>)
    ensures |sections| == |hs| && forall i :: 0 <= i < |sections| ==> sections[i] != []
  {
    seq(|hs|, i requires 0 <= i < |hs| => RenderHunk(hs[i]))
  }

  lemma RenderedLineIsNoHeader(body: seq<DiffLine>, i: nat)
    requires i < |body|
    ensures !IsHunk(RenderBody(body)[i])
  {
    RenderedLine(body[i]);
  }

  lemma HeaderIsHunk(h: Hunk)
    ensures IsHunk(RenderHeader(h))
  {
    assert "@@ -" <= RenderHeader(h);
  }

  lemma {:induction false} SectionThenRest(here: seq<string>, rest: seq<string>)
    requires here != [] && IsHunk(here[0]) && (forall i :: 0 < i < |here| ==> !IsHunk(here[i]))
    requires rest != [] ==> IsHunk(rest[0])
    ensures Sections(here + rest) == [here] + Sections(rest)
  {
    var lines := here + rest;
    FirstSection(lines, |here|);
    assert lines[..|here|] == here && lines[|here|..] == rest;
  }

  lemma {:induction false} HunkIsOneSection(h: Hunk, rest: seq<string>)
    requires rest != [] ==> IsHunk(rest[0])
    ensures Sections(RenderHunk(h) + rest) == [RenderHunk(h)] + Sections(rest)
  {
    var here := RenderHunk(h);
    HeaderIsHunk(h);
    forall i | 0 < i < |here| ensures !IsHunk(here[i]) {
      RenderedLineIsNoHeader(h.body, i - 1);
    }
    SectionThenRest(here, rest);
  }

  lemma {:induction false} SectionsOfRendered(hs: seq<Hunk>)
    ensures Sections(RenderHunks(hs)) == RenderedSections(hs)
    ensures hs != [] ==> RenderHunks(hs) != [] && IsHunk(RenderHunks(hs)[0])
  {
    if hs != [] {
      SectionsOfRendered(hs[1..]);
      HeaderIsHunk(hs[0]);
      HunkIsOneSection(hs[0], RenderHunks(hs[1..]));
      RenderedSectionsStep(hs);
    }
  }

  lemma RenderedSectionsStep(hs: seq<Hunk>)
    requires hs != []
    ensures RenderedSections(hs)[0] == RenderHunk(hs[0]) && RenderedSections(hs)[1..] == RenderedSections(hs[1..])
  {
  }

  /** Applying hunks, their headers already read. */
  function ApplyParsed(lines: seq<string>, st: State, hs: seq<Hunk>): Result<State, DiffError>
    decreases |hs|
  {
    if hs == [] then Success(st)
    else match ApplyAt(lines, st, hs[0].oldStart, RenderBody(hs[0].body))
      case Failure(e) => Failure(e)
      case Success(next) => ApplyParsed(lines, next, hs[1..])
  }

  /** The section is this hunk: a header with its old start and then its lines. */
  predicate Spells(section: seq<string>, h: Hunk)
    requires section != []
  {
    ParseHeader(section[0]) == Some(h.oldStart) && section[1..] == RenderBody(h.body)
  }

  predicate AllSpell(sections: seq<seq<string>>, hs: seq<Hunk>)
    requires forall i :: 0 <= i < |sections| ==> sections[i] != []
  {
    |sections| == |hs| && forall i :: 0 <= i < |hs| ==> Spells(sections[i], hs[i])
  }

  /** The patch has just these hunks, with any lines before the first and anything else in the headers. */
  predicate IsPatch(patch: seq<string>, hs: seq<Hunk>) {
    hs != [] && AllSpell(Sections(patch), hs)
  }

  lemma {:induction false} SectionsAreHunks(lines: seq<string>, st: State, sections: seq<seq<string>>, hs: seq<Hunk>)
    requires forall i :: 0 <= i < |sections| ==> sections[i] != []
    requires AllSpell(sections, hs)
    ensures ApplySections(lines, st, sections) == ApplyParsed(lines, st, hs)
    decreases |hs|
  {
    if hs != [] {
      assert Spells(sections[0], hs[0]);
      var next := ApplyAt(lines, st, hs[0].oldStart, RenderBody(hs[0].body));
      if next.Success? { SectionsAreHunks(lines, next.value, sections[1..], hs[1..]); }
    }
  }

  /** How the loop ends: the state after the last hunk, then the rest of the file. */
  function Ending(lines: seq<string>, r: Result<State, DiffError>): Result<seq<string>, DiffError> {
    match r
    case Failure(e) => Failure(e)
    case Success(st) => Success(st.output + Slice(lines, st.source, |lines|))
  }

  /** One hunk, wherever the source position stands. */
  lemma {:induction false} HunkExact(lines: seq<string>, out: seq<string>, at: int, h: Hunk)
    ensures var r := ApplyAt(lines, State(out, at), h.oldStart, RenderBody(h.body));
            if Fits(lines, h) then r == Success(State(out + Emitted(lines, at, h), NextAt(h)))
            else Refused(lines, r) && (h.oldStart > 0 ==> Mismatched(r))
  {
    var kept := Slice(lines, at, h.oldStart - 1);
    BodyExact(lines, out + kept, h.oldStart - 1, h.body);
    Associate(out, kept, New(h.body));
  }

  predicate StartsPositive(hs: seq<Hunk>) {
    hs == [] || (hs[0].oldStart > 0 && StartsPositive(hs[1..]))
  }

  lemma {:induction false} ParsedStep(lines: seq<string>, out: seq<string>, at: int, hs: seq<Hunk>)
    requires hs != []
    ensures var r := ApplyParsed(lines, State(out, at), hs);
            if Fits(lines, hs[0])
            then r == ApplyParsed(lines, State(out + Emitted(lines, at, hs[0]), NextAt(hs[0])), hs[1..])
            else Refused(lines, r) && (hs[0].oldStart > 0 ==> Mismatched(r))
  {
    HunkExact(lines, out, at, hs[0]);
  }

  lemma {:induction false} AssembledStep(lines: seq<string>, out: seq<string>, at: int, hs: seq<Hunk>)
    requires hs != []
    ensures out + Assembled(lines, at, hs) == out + Emitted(lines, at, hs[0]) + Assembled(lines, NextAt(hs[0]), hs[1..])
  {
    Associate(out, Emitted(lines, at, hs[0]), Assembled(lines, NextAt(hs[0]), hs[1..]));
  }

  /** Any hunks, in any order. */
  lemma {:induction false} HunksExact(lines: seq<string>, out: seq<string>, at: int, hs: seq<Hunk>)
    ensures var r := Ending(lines, ApplyParsed(lines, State(out, at), hs));
            if AllFit(lines, hs) then r == Success(out + Assembled(lines, at, hs))
            else Refused(lines, r) && (StartsPositive(hs) ==> Mismatched(r))
    decreases |hs|
  {
    if hs != [] {
      ParsedStep(lines, out, at, hs);
      if Fits(lines, hs[0]) {
        HunksExact(lines, out + Emitted(lines, at, hs[0]), NextAt(hs[0]), hs[1..]);
        AssembledStep(lines, out, at, hs);
      }
    }
  }

  predicate NoHunkIn(preamble: seq<string>) {
    forall i :: 0 <= i < |preamble| ==> !IsHunk(preamble[i])
  }

  lemma {:induction false} SectionsOfPatch(preamble: seq<string>, hs: seq<Hunk>)
    requires NoHunkIn(preamble)
    ensures Sections(preamble + RenderHunks(hs)) == RenderedSections(hs)
  {
    var patch := preamble + RenderHunks(hs);
    SectionsSkip(patch, |preamble|);
    assert patch[|preamble|..] == RenderHunks(hs);
    SectionsOfRendered(hs);
  }

  /** What rendering writes is a patch of those hunks. */
  lemma {:induction false} RenderedIsPatch(preamble: seq<string>, hs: seq<Hunk>)
    requires hs != [] && NoHunkIn(preamble)
    ensures IsPatch(preamble + RenderHunks(hs), hs)
  {
    SectionsOfPatch(preamble, hs);
    forall i | 0 <= i < |hs| ensures Spells(RenderedSections(hs)[i], hs[i]) {
      HeaderParses(hs[i]);
      assert RenderHunk(hs[i])[1..] == RenderBody(hs[i].body);
    }
  }

  /** A patch of given hunks, exactly. Counts, new starts, headings and the order of hunks play no part. */
  lemma {:induction false} HunksApplyExactly(lines: seq<string>, patch: seq<string>, hs: seq<Hunk>)
    requires IsPatch(patch, hs)
    ensures var r := ApplyLines(lines, patch);
            if AllFit(lines, hs) then r == Success(Assembled(lines, 0, hs))
            else Refused(lines, r) && (StartsPositive(hs) ==> Mismatched(r))
  {
    SectionsAreHunks(lines, State([], 0), Sections(patch), hs);
    HunksExact(lines, [], 0, hs);
    assert [] + Assembled(lines, 0, hs) == Assembled(lines, 0, hs);
  }

  // ---- Any text at all, read as a patch ----

  function ReadLine(line: string): (d: Option<DiffLine>)
    ensures d.Some? ==> RenderLine(d.value) == line
  {
    if line == "" then None
    else if line[0] == ' ' then Some(Context(line[1..]))
    else if line[0] == '-' then Some(Delete(line[1..]))
    else if line[0] == '+' then Some(Add(line[1..]))
    else if line[0] == '\\' then Some(Marker(line[1..]))
    else None
  }

  /** The lines after a hunk header, or nothing when one of them begins with none of the four characters. */
  function ReadBody(lines: seq<string>): Option<seq<DiffLine>> {
    if lines == [] then Some([])
    else match (ReadLine(lines[0]), ReadBody(lines[1..]))
      case (Some(d), Some(rest)) => Some([d] + rest)
      case _ => None
  }

  /** A header and the lines after it, or nothing when either is malformed. */
  function ReadSection(section: seq<string>): Option<Hunk>
    requires section != []
  {
    match (ParseHeader(section[0]), ReadBody(section[1..]))
    case (Some(start), Some(body)) => Some(Hunk(start, None, 0, None, "", body))
    case _ => None
  }

  function ReadSections(sections: seq<seq<string>>): Option<seq<Hunk>>
    requires forall i :: 0 <= i < |sections| ==> sections[i] != []
  {
    if sections == [] then Some([])
    else match (ReadSection(sections[0]), ReadSections(sections[1..]))
      case (Some(h), Some(rest)) => Some([h] + rest)
      case _ => None
  }

  lemma {:induction false} ReadBodyRenders(lines: seq<string>)
    requires ReadBody(lines).Some?
    ensures RenderBody(ReadBody(lines).value) == lines
  {
    if lines != [] {
      ReadBodyRenders(lines[1..]);
      RenderedStep(ReadBody(lines).value);
      assert ReadBody(lines).value[1..] == ReadBody(lines[1..]).value;
      assert lines == [lines[0]] + lines[1..];
    }
  }

  lemma {:induction false} UnreadableFails(original: seq<string>, st: State, lines: seq<string>)
    requires ReadBody(lines).None?
    ensures ApplyBody(original, st, lines).Failure?
    decreases |lines|
  {
    var next := ApplyLine(original, st, lines[0]);
    if ReadLine(lines[0]).Some? && next.Success? { UnreadableFails(original, next.value, lines[1..]); }
  }

  lemma {:induction false} ReadSpells(sections: seq<seq<string>>)
    requires forall i :: 0 <= i < |sections| ==> sections[i] != []
    requires ReadSections(sections).Some?
    ensures AllSpell(sections, ReadSections(sections).value)
  {
    if sections != [] {
      ReadSpells(sections[1..]);
      ReadBodyRenders(sections[0][1..]);
      var hs := ReadSections(sections).value;
      assert hs[0] == ReadSection(sections[0]).value && hs[1..] == ReadSections(sections[1..]).value;
      forall i | 0 <= i < |hs| ensures Spells(sections[i], hs[i]) {
        if i > 0 { assert sections[i] == sections[1..][i - 1] && hs[i] == hs[1..][i - 1]; }
      }
    }
  }

  lemma {:induction false} SectionUnread(original: seq<string>, st: State, section: seq<string>)
    requires section != [] && ReadSection(section).None?
    ensures ApplySection(original, st, section).Failure?
  {
    if ParseHeader(section[0]).Some? {
      var oldStart := ParseHeader(section[0]).value - 1;
      UnreadableFails(original, State(st.output + Slice(original, st.source, oldStart), oldStart), section[1..]);
    }
  }

  lemma {:induction false} SectionsUnread(original: seq<string>, st: State, sections: seq<seq<string>>)
    requires forall i :: 0 <= i < |sections| ==> sections[i] != []
    requires ReadSections(sections).None?
    ensures ApplySections(original, st, sections).Failure?
    decreases |sections|
  {
    var next := ApplySection(original, st, sections[0]);
    if ReadSection(sections[0]).None? {
      SectionUnread(original, st, sections[0]);
    } else if next.Success? {
      SectionsUnread(original, next.value, sections[1..]);
    }
  }

  /** Any patch whatsoever, exactly: it is accepted if and only if it has a hunk, every hunk header and every line
      after one is well-formed, and each hunk on its own finds its old lines where its header says. The output is then
      assembled from the source hunk by hunk. Counts, new starts, markers and the order of hunks play no part, so
      lines can be lost or repeated. */
  lemma {:induction false} AppliesExactly(lines: seq<string>, patch: seq<string>)
    ensures var r, sections := ApplyLines(lines, patch), Sections(patch);
            if sections == [] then r == Failure(InvalidUnifiedDiff)
            else match ReadSections(sections)
              case None => r.Failure?
              case Some(hs) =>
                && IsPatch(patch, hs)
                && if AllFit(lines, hs) then r == Success(Assembled(lines, 0, hs)) else Refused(lines, r)
  {
    if ReadSections(Sections(patch)).None? {
      SectionsUnread(lines, State([], 0), Sections(patch));
    } else if Sections(patch) != [] {
      ReadSpells(Sections(patch));
      HunksApplyExactly(lines, patch, ReadSections(Sections(patch)).value);
    }
  }

  // ---- Hunks out of order ----

  lemma {:induction false} AssembledCons(lines: seq<string>, at: int, h: Hunk, rest: seq<Hunk>)
    ensures Assembled(lines, at, [h] + rest) == Emitted(lines, at, h) + Assembled(lines, NextAt(h), rest)
  {
    assert ([h] + rest)[1..] == rest;
  }

  lemma {:induction false} FitCons(lines: seq<string>, h: Hunk, rest: seq<Hunk>)
    ensures AllFit(lines, [h] + rest) <==> Fits(lines, h) && AllFit(lines, rest)
  {
    assert ([h] + rest)[1..] == rest;
  }

  lemma {:induction false} OneContext(lines: seq<string>, h: Hunk, x: string)
    requires h.body == [Context(x)] && 1 <= h.oldStart <= |lines| && lines[h.oldStart - 1] == x
    ensures Fits(lines, h) && NextAt(h) == h.oldStart && New(h.body) == [x]
  {
    assert h.body[1..] == [];
  }

  /** A patch out of order is accepted: its first hunk confirms line 2, its second line 1, and both lines come out
      twice. */
  lemma {:induction false} OutOfOrderIsAccepted(a: string, b: string, patch: seq<string>, second: Hunk, first: Hunk)
    requires IsPatch(patch, [second, first])
    requires second.oldStart == 2 && second.body == [Context(b)]
    requires first.oldStart == 1 && first.body == [Context(a)]
    ensures ApplyLines([a, b], patch) == Success([a, b, a, b])
  {
    var lines := [a, b];
    OneContext(lines, second, b);
    OneContext(lines, first, a);
    FitCons(lines, second, [first] + []);
    FitCons(lines, first, []);
    AssembledCons(lines, 0, second, [first] + []);
    AssembledCons(lines, 2, first, []);
    assert [second] + ([first] + []) == [second, first];
    HunksApplyExactly(lines, patch, [second, first]);
    TwiceOver(a, b, Assembled(lines, 1, []));
  }

  lemma TwiceOver(a: string, b: string, end: seq<string>)
    requires end == Slice([a, b], 1, 2)
    ensures Slice([a, b], 0, 1) + [b] + (Slice([a, b], 2, 0) + [a] + end) == [a, b, a, b]
  {
    assert end == [b];
  }

  // ---- Ordered hunks with old lines: block replacement ----

  lemma {:induction false} OrderedFit(lines: seq<string>, from: nat, hs: seq<Hunk>)
    requires Ordered(hs, from)
    ensures AllFit(lines, hs) <==> AllMatch(lines, hs)
    ensures StartsPositive(hs)
    decreases |hs|
  {
    if hs != [] {
      OrderedFit(lines, NextAt(hs[0]), hs[1..]);
    }
  }

  /** What lies before the first hunk, its new lines, and the rest. */
  lemma {:induction false} AssembledUnfold(lines: seq<string>, from: nat, hs: seq<Hunk>)
    requires hs != [] && from <= |lines| && Ordered(hs, from) && AllMatch(lines, hs)
    ensures 0 <= NextAt(hs[0]) <= |lines|
    ensures Assembled(lines, from, hs)
              == lines[from..hs[0].oldStart - 1] + New(hs[0].body) + Assembled(lines, NextAt(hs[0]), hs[1..])
  {
  }

  lemma {:induction false} ReplaceUnfold(lines: seq<string>, hs: seq<Hunk>, later: seq<string>)
    requires hs != [] && later == ReplaceBlocks(lines, hs[1..])
    requires hs[0].oldStart >= 1 && hs[0].oldStart - 1 + |Old(hs[0].body)| <= |later|
    ensures var s := hs[0].oldStart - 1;
            ReplaceBlocks(lines, hs) == later[..s] + New(hs[0].body) + later[s + |Old(hs[0].body)|..]
  {
  }

  lemma {:induction false} AssembledIsReplaceBlocks(lines: seq<string>, from: nat, hs: seq<Hunk>)
    requires from <= |lines| && Ordered(hs, from) && AllMatch(lines, hs)
    ensures ContinuesAs(lines, from, ReplaceBlocks(lines, hs), Assembled(lines, from, hs))
    decreases |hs|
  {
    if hs != [] {
      AssembledUnfold(lines, from, hs);
      AssembledIsReplaceBlocks(lines, NextAt(hs[0]), hs[1..]);
      ReplaceStep(lines, from, hs, ReplaceBlocks(lines, hs[1..]));
    }
  }

  /** `whole` is the file up to `from` and then `rest`. */
  predicate ContinuesAs(lines: seq<string>, from: nat, whole: seq<string>, rest: seq<string>) {
    from <= |lines| && from <= |whole| && whole[..from] == lines[..from] && whole[from..] == rest
  }

  lemma {:induction false} ReplaceStep(lines: seq<string>, from: nat, hs: seq<Hunk>, later: seq<string>)
    requires hs != [] && from < hs[0].oldStart && later == ReplaceBlocks(lines, hs[1..])
    requires ContinuesAs(lines, NextAt(hs[0]), later, Assembled(lines, NextAt(hs[0]), hs[1..]))
    ensures ContinuesAs(lines, from, ReplaceBlocks(lines, hs),
                        lines[from..hs[0].oldStart - 1] + New(hs[0].body) + Assembled(lines, NextAt(hs[0]), hs[1..]))
  {
    ReplaceUnfold(lines, hs, later);
    Spliced(lines, later, from, hs[0].oldStart - 1, |Old(hs[0].body)|, New(hs[0].body));
  }

  /** Splicing one block into a file that is still original up to the block's end. */
  lemma Spliced(lines: seq<string>, later: seq<string>, from: nat, s: nat, n: nat, block: seq<string>)
    requires from <= s && s + n <= |later| && s + n <= |lines| && later[..s + n] == lines[..s + n]
    ensures var whole := later[..s] + block + later[s + n..];
            && |whole| >= from && whole[..from] == lines[..from]
            && whole[from..] == lines[from..s] + block + later[s + n..]
  {
    var whole := later[..s] + block + later[s + n..];
    assert later[..s] == later[..s + n][..s] == lines[..s + n][..s] == lines[..s];
    assert whole[..from] == lines[..s][..from];
    assert whole[from..] == lines[..s][from..] + block + later[s + n..];
  }

  lemma {:induction false} AssembledWhole(lines: seq<string>, hs: seq<Hunk>)
    requires Ordered(hs, 0) && AllMatch(lines, hs)
    ensures Assembled(lines, 0, hs) == ReplaceBlocks(lines, hs)
  {
    AssembledIsReplaceBlocks(lines, 0, hs);
    assert ReplaceBlocks(lines, hs)[0..] == ReplaceBlocks(lines, hs);
  }

  /** For ordered, non-overlapping hunks with old lines, the patch is accepted exactly when every old block is where its
      hunk says, and then the result is the file with each old block replaced by its new block, all else in order. */
  lemma {:induction false} RefinesBlockReplacement(lines: seq<string>, patch: seq<string>, hs: seq<Hunk>)
    requires IsPatch(patch, hs) && Ordered(hs, 0)
    ensures var r := ApplyLines(lines, patch);
            if AllMatch(lines, hs) then r == Success(ReplaceBlocks(lines, hs)) else Mismatched(r)
  {
    HunksApplyExactly(lines, patch, hs);
    OrderedFit(lines, 0, hs);
    if AllMatch(lines, hs) { AssembledWhole(lines, hs); }
  }
}
