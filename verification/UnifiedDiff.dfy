/** Applying a unified diff (aor/agents/file.py, `_apply_unified_diff`). */
module UnifiedDiff {
  import opened Prelude

  datatype DiffError =
    | InvalidUnifiedDiff | InvalidHeader | InvalidLine | ContextMismatch | DeleteMismatch
    | IndexError  // Python's own, not one of the agent's errors

  // ---- Lines ----

  /** The characters `str.splitlines` breaks at. */
  predicate IsBreak(c: char) {
    '\n' <= c <= '\r' || '\U{1C}' <= c <= '\U{1E}' || c == '\U{85}' || c == '\U{2028}' || c == '\U{2029}'
  }

  /** The length of the first line, its terminator included. */
  function FirstLine(s: string): (n: nat)
    requires s != ""
    ensures 0 < n <= |s|
  {
    if s[0] == '\r' && |s| > 1 && s[1] == '\n' then 2
    else if IsBreak(s[0]) || |s| == 1 then 1
    else 1 + FirstLine(s[1..])
  }

  /** `str.splitlines(keepends=True)`. */
  function SplitLines(s: string): (lines: seq<string>)
    ensures forall i :: 0 <= i < |lines| ==> lines[i] != ""
    decreases |s|
  {
    if s == "" then [] else [s[..FirstLine(s)]] + SplitLines(s[FirstLine(s)..])
  }

  /** `"".join`. */
  function Join(lines: seq<string>): string {
    if lines == [] then "" else lines[0] + Join(lines[1..])
  }

  /** A line ending in `\n` and broken nowhere else. */
  predicate Terminated(line: string) {
    line != "" && line[|line| - 1] == '\n' && forall i :: 0 <= i < |line| - 1 ==> !IsBreak(line[i])
  }

  predicate AllTerminated(lines: seq<string>) {
    forall i :: 0 <= i < |lines| ==> Terminated(lines[i])
  }

  lemma {:induction false} JoinSplit(s: string)
    ensures Join(SplitLines(s)) == s
    decreases |s|
  {
    if s != "" {
      JoinSplit(s[FirstLine(s)..]);
      assert SplitLines(s)[1..] == SplitLines(s[FirstLine(s)..]);
    }
  }

  lemma {:induction false} FirstLineOf(line: string, rest: string)
    requires Terminated(line)
    ensures FirstLine(line + rest) == |line|
  {
    var s := line + rest;
    if |line| > 1 {
      assert !IsBreak(s[0]) && s[0] == line[0];
      FirstLineOf(line[1..], rest);
      assert s[1..] == line[1..] + rest;
    }
  }

  lemma {:induction false} SplitJoin(lines: seq<string>)
    requires AllTerminated(lines)
    ensures SplitLines(Join(lines)) == lines
  {
    if lines != [] {
      var rest := Join(lines[1..]);
      SplitJoin(lines[1..]);
      FirstLineOf(lines[0], rest);
      assert (lines[0] + rest)[..|lines[0]|] == lines[0] && (lines[0] + rest)[|lines[0]|..] == rest;
    }
  }

  // ---- Hunk headers ----

  predicate IsDigit(c: char) { '0' <= c <= '9' }

  /** How many digits the text starts with. */
  function DigitCount(s: string): (n: nat)
    ensures n <= |s| && forall i :: 0 <= i < n ==> IsDigit(s[i])
  {
    if s != "" && IsDigit(s[0]) then 1 + DigitCount(s[1..]) else 0
  }

  function DigitValue(c: char): nat
    requires IsDigit(c)
  {
    c as int - '0' as int
  }

  function Number(digits: string): nat
    requires forall i :: 0 <= i < |digits| ==> IsDigit(digits[i])
  {
    if digits == "" then 0 else 10 * Number(digits[..|digits| - 1]) + DigitValue(digits[|digits| - 1])
  }

  /** The text after an optional `,count`. */
  function AfterCount(s: string): string {
    if s != "" && s[0] == ',' && DigitCount(s[1..]) > 0 then s[1 + DigitCount(s[1..])..] else s
  }

  /** A number after `prefix`, and the text after it and its optional count. */
  function ReadStart(prefix: string, s: string): Option<(nat, string)> {
    if !(prefix <= s) || DigitCount(s[|prefix|..]) == 0 then None
    else
      var end := |prefix| + DigitCount(s[|prefix|..]);
      Some((Number(s[|prefix|..end]), AfterCount(s[end..])))
  }

  /** `@@ -start[,count] +start[,count] @@` at the start of a line; only the old start is used. */
  function ParseHeader(line: string): Option<nat> {
    match ReadStart("@@ -", line)
    case None => None
    case Some((start, afterOld)) =>
      match ReadStart(" +", afterOld)
      case None => None
      case Some((_, afterNew)) => if " @@" <= afterNew then Some(start) else None
  }

  // ---- Sections: a hunk header and the lines up to the next ----

  predicate IsHunk(line: string) { "@@ " <= line }

  function BodyLength(lines: seq<string>): (n: nat)
    ensures n <= |lines|
    ensures n < |lines| ==> IsHunk(lines[n])
    ensures forall i :: 0 <= i < n ==> !IsHunk(lines[i])
  {
    if lines == [] || IsHunk(lines[0]) then 0 else 1 + BodyLength(lines[1..])
  }

  function Sections(lines: seq<string>): (sections: seq<seq<string>>)
    ensures forall i :: 0 <= i < |sections| ==> sections[i] != []
    decreases |lines|
  {
    if lines == [] then []
    else if !IsHunk(lines[0]) then Sections(lines[1..])
    else
      var n := BodyLength(lines[1..]);
      [lines[..1 + n]] + Sections(lines[1 + n..])
  }

  lemma {:induction false} SectionsSkip(lines: seq<string>, i: nat)
    requires i <= |lines| && forall j :: 0 <= j < i ==> !IsHunk(lines[j])
    ensures Sections(lines) == Sections(lines[i..])
  {
    if i == 0 {
      assert lines[0..] == lines;
    } else {
      SectionsSkip(lines[1..], i - 1);
      assert lines[1..][i - 1..] == lines[i..];
    }
  }

  lemma {:induction false} BodyLengthIs(lines: seq<string>, n: nat)
    requires n <= |lines| && (n < |lines| ==> IsHunk(lines[n])) && forall i :: 0 <= i < n ==> !IsHunk(lines[i])
    ensures BodyLength(lines) == n
  {
  }

  // ---- One patch line, one hunk, all hunks ----

  datatype State = State(output: seq<string>, source: int)

  /** Python's `lines[i]`, negative positions included. */
  function LineAt(lines: seq<string>, i: int): Option<string> {
    if 0 <= i < |lines| then Some(lines[i])
    else if -|lines| <= i < 0 then Some(lines[|lines| + i])
    else None
  }

  /** Compares the source line with `content`; `mismatch` is the error when it is not there or differs. */
  function Expect(original: seq<string>, st: State, content: string, mismatch: DiffError): Option<DiffError> {
    if st.source >= |original| then Some(mismatch)
    else match LineAt(original, st.source)
      case None => Some(IndexError)
      case Some(line) => if line != content then Some(mismatch) else None
  }

  function ApplyLine(original: seq<string>, st: State, line: string): Result<State, DiffError> {
    if line == "" || line[0] !in " +-\\" then Failure(InvalidLine)
    else
      var content := line[1..];
      if line[0] == ' ' then
        match Expect(original, st, content, ContextMismatch)
        case Some(e) => Failure(e)
        case None => Success(State(st.output + [content], st.source + 1))
      else if line[0] == '-' then
        match Expect(original, st, content, DeleteMismatch)
        case Some(e) => Failure(e)
        case None => Success(State(st.output, st.source + 1))
      else if line[0] == '+' then Success(State(st.output + [content], st.source))
      else Success(st)
  }

  function ApplyBody(original: seq<string>, st: State, body: seq<string>): Result<State, DiffError>
    decreases |body|
  {
    if body == [] then Success(st)
    else match ApplyLine(original, st, body[0])
      case Failure(e) => Failure(e)
      case Success(next) => ApplyBody(original, next, body[1..])
  }

  /** Copies up to the hunk, then works through its body. */
  function ApplyAt(original: seq<string>, st: State, start: nat, body: seq<string>): Result<State, DiffError> {
    var oldStart := start - 1;
    ApplyBody(original, State(st.output + Slice(original, st.source, oldStart), oldStart), body)
  }

  function ApplySection(original: seq<string>, st: State, section: seq<string>): Result<State, DiffError>
    requires section != []
  {
    match ParseHeader(section[0])
    case None => Failure(InvalidHeader)
    case Some(start) => ApplyAt(original, st, start, section[1..])
  }

  function ApplySections(original: seq<string>, st: State, sections: seq<seq<string>>): Result<State, DiffError>
    requires forall i :: 0 <= i < |sections| ==> sections[i] != []
    decreases |sections|
  {
    if sections == [] then Success(st)
    else match ApplySection(original, st, sections[0])
      case Failure(e) => Failure(e)
      case Success(next) => ApplySections(original, next, sections[1..])
  }

  function ApplyLines(original: seq<string>, patch: seq<string>): Result<seq<string>, DiffError> {
    if Sections(patch) == [] then Failure(InvalidUnifiedDiff)
    else match ApplySections(original, State([], 0), Sections(patch))
      case Failure(e) => Failure(e)
      case Success(st) => Success(st.output + Slice(original, st.source, |original|))
  }

  function Apply(original: string, patch: string): Result<string, DiffError> {
    match ApplyLines(SplitLines(original), SplitLines(patch))
    case Failure(e) => Failure(e)
    case Success(lines) => Success(Join(lines))
  }

  // ---- The loop ----

  /** The inner loop over the lines of one hunk. */
  method RunBody(original: seq<string>, output: seq<string>, sourceIndex: int, body: seq<string>)
    returns (r: Result<State, DiffError>)
    ensures r == ApplyBody(original, State(output, sourceIndex), body)
  {
    var out, source := output, sourceIndex;
    for i := 0 to |body|
      invariant ApplyBody(original, State(out, source), body[i..])
                == ApplyBody(original, State(output, sourceIndex), body)
    {
      var line := body[i];
      assert body[i..][0] == line && body[i..][1..] == body[i + 1..];
      if line == "" || line[0] !in " +-\\" { return Failure(InvalidLine); }
      var marker, content := line[0], line[1..];
      if marker == ' ' {
        var e := Expect(original, State(out, source), content, ContextMismatch);
        if e.Some? { return Failure(e.value); }
        out := out + [content];
        source := source + 1;
      } else if marker == '-' {
        var e := Expect(original, State(out, source), content, DeleteMismatch);
        if e.Some? { return Failure(e.value); }
        source := source + 1;
      } else if marker == '+' {
        out := out + [content];
      }
    }
    return Success(State(out, source));
  }

  /** The positions of the hunk headers. */
  method FindHunks(patchLines: seq<string>) returns (hunks: seq<nat>)
    ensures forall h :: 0 <= h < |hunks| ==> hunks[h] < |patchLines| && IsHunk(patchLines[hunks[h]])
    ensures forall h, k :: 0 <= h < k < |hunks| ==> hunks[h] < hunks[k]
    ensures forall i :: 0 <= i < |patchLines| && IsHunk(patchLines[i]) ==> i in hunks
  {
    hunks := [];
    for i := 0 to |patchLines|
      invariant forall h :: 0 <= h < |hunks| ==> hunks[h] < i && IsHunk(patchLines[hunks[h]])
      invariant forall h, k :: 0 <= h < k < |hunks| ==> hunks[h] < hunks[k]
      invariant forall j :: 0 <= j < i && IsHunk(patchLines[j]) ==> j in hunks
    {
      if IsHunk(patchLines[i]) { hunks := hunks + [i]; }
    }
  }

  ghost predicate AllHunks(lines: seq<string>, hunks: seq<nat>) {
    && (forall h :: 0 <= h < |hunks| ==> hunks[h] < |lines| && IsHunk(lines[hunks[h]]))
    && (forall h, k :: 0 <= h < k < |hunks| ==> hunks[h] < hunks[k])
    && (forall i :: 0 <= i < |lines| && IsHunk(lines[i]) ==> i in hunks)
  }

  /** Where hunk `h` ends: at the next header or the end of the patch. */
  function EndOf(lines: seq<string>, hunks: seq<nat>, h: nat): nat
    requires h < |hunks|
  {
    if h + 1 < |hunks| then hunks[h + 1] else |lines|
  }

  lemma NoHunkBetween(lines: seq<string>, hunks: seq<nat>, h: nat)
    requires AllHunks(lines, hunks) && h < |hunks|
    ensures hunks[h] < EndOf(lines, hunks, h) <= |lines|
    ensures forall i :: hunks[h] < i < EndOf(lines, hunks, h) ==> !IsHunk(lines[i])
  {
  }

  lemma {:induction false} FirstSection(here: seq<string>, n: nat)
    requires 1 <= n <= |here| && IsHunk(here[0])
    requires (n < |here| ==> IsHunk(here[n])) && forall i :: 0 < i < n ==> !IsHunk(here[i])
    ensures Sections(here) == [here[..n]] + Sections(here[n..])
  {
    BodyLengthIs(here[1..], n - 1);
  }

  lemma SliceOfSlice(lines: seq<string>, start: nat, end: nat)
    requires start <= end <= |lines|
    ensures lines[start..][..end - start] == lines[start..end] && lines[start..][end - start..] == lines[end..]
  {
  }

  lemma {:induction false} SectionHere(lines: seq<string>, hunks: seq<nat>, h: nat)
    requires AllHunks(lines, hunks) && h < |hunks|
    ensures var start, end := hunks[h], EndOf(lines, hunks, h);
            && start < end <= |lines|
            && Sections(lines[start..]) == [lines[start..end]] + Sections(lines[end..])
  {
    var start, end := hunks[h], EndOf(lines, hunks, h);
    NoHunkBetween(lines, hunks, h);
    var here, n := lines[start..], end - start;
    SliceOfSlice(lines, start, end);
    forall i | 0 < i < n ensures !IsHunk(here[i]) {
      assert here[i] == lines[start + i];
    }
    if n < |here| { assert here[n] == lines[end]; }
    FirstSection(here, n);
  }

  lemma {:induction false} SectionsFromFirst(lines: seq<string>, hunks: seq<nat>)
    requires AllHunks(lines, hunks)
    ensures Sections(lines) == SectionsAt(lines, hunks, 0)
  {
    var first := if hunks == [] then |lines| else hunks[0];
    assert forall i :: 0 <= i < first ==> !IsHunk(lines[i]);
    SectionsSkip(lines, first);
  }

  /** The sections from hunk `h` on. */
  ghost function SectionsAt(lines: seq<string>, hunks: seq<nat>, h: nat): (sections: seq<seq<string>>)
    requires AllHunks(lines, hunks) && h <= |hunks|
    ensures forall i :: 0 <= i < |sections| ==> sections[i] != []
  {
    if h == |hunks| then [] else Sections(lines[hunks[h]..])
  }

  lemma {:induction false} SectionsStep(lines: seq<string>, hunks: seq<nat>, h: nat)
    requires AllHunks(lines, hunks) && h < |hunks|
    ensures hunks[h] < EndOf(lines, hunks, h) <= |lines|
    ensures SectionsAt(lines, hunks, h) == [lines[hunks[h]..EndOf(lines, hunks, h)]] + SectionsAt(lines, hunks, h + 1)
  {
    SectionHere(lines, hunks, h);
  }

  method RunSection(original: seq<string>, output: seq<string>, sourceIndex: int, section: seq<string>)
    returns (r: Result<State, DiffError>)
    requires section != []
    ensures r == ApplySection(original, State(output, sourceIndex), section)
  {
    var header := ParseHeader(section[0]);
    if header.None? { return Failure(InvalidHeader); }
    r := RunAt(original, output, sourceIndex, header.value, section[1..]);
  }

  method RunAt(original: seq<string>, output: seq<string>, sourceIndex: int, start: nat, body: seq<string>)
    returns (r: Result<State, DiffError>)
    ensures r == ApplyAt(original, State(output, sourceIndex), start, body)
  {
    var oldStart: int := start as int - 1;
    r := RunBody(original, output + Slice(original, sourceIndex, oldStart), oldStart, body);
  }

  method ApplyUnifiedDiff(original: string, patch: string) returns (r: Result<string, DiffError>)
    ensures r == Apply(original, patch)
  {
    var originalLines := SplitLines(original);
    var patchLines := SplitLines(patch);
    var hunks := FindHunks(patchLines);
    SectionsFromFirst(patchLines, hunks);
    if hunks == [] { return Failure(InvalidUnifiedDiff); }
    SectionsStep(patchLines, hunks, 0);

    var output: seq<string> := [];
    var sourceIndex: int := 0;
    ghost var whole := ApplySections(originalLines, State([], 0), Sections(patchLines));
    for h := 0 to |hunks|
      invariant ApplySections(originalLines, State(output, sourceIndex), SectionsAt(patchLines, hunks, h)) == whole
    {
      SectionsStep(patchLines, hunks, h);
      var section := patchLines[hunks[h]..EndOf(patchLines, hunks, h)];
      assert SectionsAt(patchLines, hunks, h)[1..] == SectionsAt(patchLines, hunks, h + 1);
      var applied := RunSection(originalLines, output, sourceIndex, section);
      if applied.Failure? { return Failure(applied.error); }
      output, sourceIndex := applied.value.output, applied.value.source;
    }
    return Success(Join(output + Slice(originalLines, sourceIndex, |originalLines|)));
  }
}
