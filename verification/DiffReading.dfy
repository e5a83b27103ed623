/** How texts are read as lines and patches, and why patches are refused. */
module DiffReading {
  import opened Prelude
  import opened UnifiedDiff
  import opened DiffTheorems

  // ---- Lines ----

  /** The line boundaries of Python's `str.splitlines`. */
  predicate BreaksLine(c: char) {
    c in {'\n', '\U{0B}', '\U{0C}', '\r', '\U{1C}', '\U{1D}', '\U{1E}', '\U{85}', '\U{2028}', '\U{2029}'}
  }

  /** How many characters at the start of the text break it: a carriage return and a line feed count as one break. */
  function BreakLength(s: string): nat {
    if "\r\n" <= s then 2 else if s != "" && BreaksLine(s[0]) then 1 else 0
  }

  /** A line of `body` and `end`: the body has no break, and the end is one, missing only where the text ends. */
  predicate IsLine(body: string, end: string, rest: string) {
    && (forall i :: 0 <= i < |body| ==> !BreaksLine(body[i]))
    && |end| == BreakLength(end + rest)
    && (end == "" ==> body != "" && rest == "")
  }

  /** The text is these lines, one after the other. */
  ghost predicate AreLines(lines: seq<string>, s: string)
    decreases |lines|
  {
    if lines == [] then s == ""
    else exists body, end, rest ::
      lines[0] == body + end && s == body + end + rest && IsLine(body, end, rest) && AreLines(lines[1..], rest)
  }

  lemma BreaksAre(c: char)
    ensures IsBreak(c) <==> BreaksLine(c)
  {
  }

  /** Where a line ends. */
  lemma {:induction false} FirstLineExactly(body: string, end: string, rest: string)
    requires IsLine(body, end, rest)
    ensures body + end + rest != "" && FirstLine(body + end + rest) == |body + end|
    decreases |body|
  {
    var s := body + end + rest;
    if body == "" {
      assert s == end + rest;
      BreaksAre(s[0]);
    } else {
      BreaksAre(s[0]);
      assert s[0] == body[0];
      if |s| > 1 {
        assert s[1..] == body[1..] + end + rest;
        FirstLineExactly(body[1..], end, rest);
      }
    }
  }

  /** Any text but the empty one starts with a line. */
  lemma {:induction false} StartsWithLine(s: string) returns (body: string, end: string, rest: string)
    requires s != ""
    ensures s == body + end + rest && IsLine(body, end, rest)
  {
    var n := BreakLength(s);
    if n > 0 {
      body, end, rest := "", s[..n], s[n..];
      assert end + rest == s;
    } else if |s| == 1 {
      body, end, rest := s, "", "";
    } else {
      body, end, rest := StartsWithLine(s[1..]);
      LongerLine(s[0], body, end, rest);
      assert s == [s[0]] + (body + end + rest) == ([s[0]] + body) + end + rest;
      body := [s[0]] + body;
    }
  }

  lemma LongerLine(c: char, body: string, end: string, rest: string)
    requires IsLine(body, end, rest) && !BreaksLine(c)
    ensures IsLine([c] + body, end, rest)
  {
  }

  lemma {:induction false} FirstLineIsLine(s: string) returns (body: string, end: string, rest: string)
    requires s != ""
    ensures s == body + end + rest && IsLine(body, end, rest)
    ensures s[..FirstLine(s)] == body + end && s[FirstLine(s)..] == rest
  {
    body, end, rest := StartsWithLine(s);
    FirstLineExactly(body, end, rest);
  }

  /** Splitting finds exactly the lines of the text. */
  lemma {:induction false} SplitsExactly(lines: seq<string>, s: string)
    ensures SplitLines(s) == lines <==> AreLines(lines, s)
    decreases |lines|
  {
    if s != "" && lines != [] {
      var rest := s[FirstLine(s)..];
      SplitsExactly(lines[1..], rest);
      if SplitLines(s) == lines {
        var body, end, rest' := FirstLineIsLine(s);
        assert lines[0] == s[..FirstLine(s)] && lines[1..] == SplitLines(rest);
      }
      if AreLines(lines, s) {
        var body, end, rest' :| lines[0] == body + end && s == body + end + rest' && IsLine(body, end, rest')
                                && AreLines(lines[1..], rest');
        FirstLineExactly(body, end, rest');
        assert s[..FirstLine(s)] == lines[0] && rest == rest';
      }
    }
  }

  // ---- Headers ----

  /** An optional count of a header. */
  predicate IsCount(count: string) {
    count == "" || (count[0] == ',' && IsNumeral(count[1..]))
  }

  /** A line that starts with a hunk header whose old start is spelled `digits`; any text may follow. */
  ghost predicate IsHeader(line: string, digits: string) {
    exists oldCount, afterOld, newDigits, newCount, afterNew ::
      && IsNumeral(digits) && IsCount(oldCount) && IsNumeral(newDigits) && IsCount(newCount)
      && line == "@@ -" + digits + (oldCount + afterOld) && afterOld == " +" + newDigits + (newCount + afterNew)
      && " @@" <= afterNew
  }

  lemma {:induction false} CountRead(prefix: string, digits: string, count: string, rest: string)
    requires IsNumeral(digits) && IsCount(count) && " " <= rest
    ensures ReadStart(prefix, prefix + digits + (count + rest)) == Some((Number(digits), rest))
  {
    StartRead(prefix, digits, count + rest);
    if count == "" {
      assert count + rest == rest;
    } else {
      assert count == "," + count[1..];
      AfterDigits(count[1..], rest);
    }
  }

  lemma {:induction false} HeaderRead(line: string, digits: string)
    requires IsHeader(line, digits)
    ensures ParseHeader(line) == Some(Number(digits))
  {
    var oldCount, afterOld, newDigits, newCount, afterNew :|
      && IsNumeral(digits) && IsCount(oldCount) && IsNumeral(newDigits) && IsCount(newCount)
      && line == "@@ -" + digits + (oldCount + afterOld) && afterOld == " +" + newDigits + (newCount + afterNew)
      && " @@" <= afterNew;
    assert " " <= afterNew && " " <= afterOld;
    CountRead("@@ -", digits, oldCount, afterOld);
    CountRead(" +", newDigits, newCount, afterNew);
  }

  lemma {:induction false} CountWas(tail: string) returns (count: string)
    ensures IsCount(count) && tail == count + AfterCount(tail)
  {
    if tail != "" && tail[0] == ',' && DigitCount(tail[1..]) > 0 {
      var n := DigitCount(tail[1..]);
      count := tail[..1 + n];
      assert count[1..] == tail[1..][..n];
    } else {
      count := "";
    }
  }

  lemma CutNumber(prefix: string, s: string, n: nat)
    requires prefix <= s && |prefix| + n <= |s|
    ensures s == prefix + s[|prefix|..|prefix| + n] + s[|prefix| + n..]
    ensures s[|prefix|..][..n] == s[|prefix|..|prefix| + n]
  {
  }

  /** What was read at a start was there. */
  lemma {:induction false} StartWas(prefix: string, s: string) returns (digits: string, count: string, rest: string)
    requires ReadStart(prefix, s).Some?
    ensures IsNumeral(digits) && IsCount(count) && ReadStart(prefix, s) == Some((Number(digits), rest))
    ensures s == prefix + digits + (count + rest)
  {
    var n := DigitCount(s[|prefix|..]);
    CutNumber(prefix, s, n);
    digits, rest := s[|prefix|..|prefix| + n], AfterCount(s[|prefix| + n..]);
    count := CountWas(s[|prefix| + n..]);
  }

  lemma {:induction false} HeaderWas(line: string) returns (digits: string)
    requires ParseHeader(line).Some?
    ensures IsHeader(line, digits) && ParseHeader(line).value == Number(digits)
  {
    var oldCount, afterOld, newDigits, newCount, afterNew;
    digits, oldCount, afterOld := StartWas("@@ -", line);
    newDigits, newCount, afterNew := StartWas(" +", afterOld);
  }

  /** A header is read as `n` exactly when it is one, and its old start spells `n`. */
  lemma {:induction false} HeaderExactly(line: string, n: nat)
    ensures ParseHeader(line) == Some(n) <==> exists digits :: IsHeader(line, digits) && Number(digits) == n
  {
    if ParseHeader(line) == Some(n) { var digits := HeaderWas(line); }
    if digits :| IsHeader(line, digits) && Number(digits) == n { HeaderRead(line, digits); }
  }

  // ---- Sections ----

  predicate StartsHunk(line: string) {
    |line| >= 3 && line[0] == '@' && line[1] == '@' && line[2] == ' '
  }

  predicate NoneStarts(lines: seq<string>) {
    forall i :: 0 <= i < |lines| ==> !StartsHunk(lines[i])
  }

  /** One line that starts a hunk, and the lines after it up to the next. */
  predicate IsSection(section: seq<string>) {
    section != [] && StartsHunk(section[0]) && NoneStarts(section[1..])
  }

  function Flat(sections: seq<seq<string>>): seq<string> {
    if sections == [] then [] else sections[0] + Flat(sections[1..])
  }

  /** The patch is the preamble, in which no line starts a hunk, and then these sections in order. */
  predicate IsCut(patch: seq<string>, preamble: seq<string>, sections: seq<seq<string>>) {
    && patch == preamble + Flat(sections) && NoneStarts(preamble)
    && forall i :: 0 <= i < |sections| ==> IsSection(sections[i])
  }

  lemma {:induction false} CutSkip(line: string, rest: seq<string>, preamble: seq<string>, sections: seq<seq<string>>)
    requires !StartsHunk(line) && IsCut(rest, preamble, sections)
    ensures IsCut([line] + rest, [line] + preamble, sections)
  {
    assert [line] + (preamble + Flat(sections)) == ([line] + preamble) + Flat(sections);
  }

  lemma {:induction false} CutCons(here: seq<string>, rest: seq<string>, sections: seq<seq<string>>)
    requires IsSection(here) && IsCut(rest, [], sections)
    ensures IsCut(here + rest, [], [here] + sections)
  {
    assert ([here] + sections)[1..] == sections;
    assert rest == Flat(sections) && here + rest == [] + (here + rest);
  }

  /** Reading a patch cuts it so: nothing else is dropped, and no section is cut short. */
  lemma {:induction false} SectionsExactly(patch: seq<string>) returns (preamble: seq<string>)
    ensures IsCut(patch, preamble, Sections(patch))
    decreases |patch|
  {
    preamble := [];
    if patch != [] && !IsHunk(patch[0]) {
      StartIsHunk(patch[0]);
      var rest := SectionsExactly(patch[1..]);
      CutSkip(patch[0], patch[1..], rest, Sections(patch[1..]));
      preamble := [patch[0]] + rest;
      assert patch == [patch[0]] + patch[1..];
    } else if patch != [] {
      var n := 1 + BodyLength(patch[1..]);
      FirstIsSection(patch);
      var rest := SectionsExactly(patch[n..]);
      NothingBetween(patch[n..], rest);
      CutCons(patch[..n], patch[n..], Sections(patch[n..]));
      assert patch == patch[..n] + patch[n..];
    }
  }

  lemma StartIsHunk(line: string)
    ensures IsHunk(line) <==> StartsHunk(line)
  {
  }

  lemma {:induction false} FirstIsSection(patch: seq<string>)
    requires patch != [] && IsHunk(patch[0])
    ensures var n := 1 + BodyLength(patch[1..]);
            IsSection(patch[..n]) && (n < |patch| ==> IsHunk(patch[n]))
  {
    var n := 1 + BodyLength(patch[1..]);
    StartIsHunk(patch[0]);
    forall i | 0 <= i < n - 1 ensures !StartsHunk(patch[..n][1..][i]) {
      assert patch[..n][1..][i] == patch[1..][i];
      StartIsHunk(patch[1..][i]);
    }
    if n < |patch| { assert patch[n] == patch[1..][n - 1]; }
  }

  /** After a section comes another, or nothing. */
  lemma {:induction false} NothingBetween(rest: seq<string>, preamble: seq<string>)
    requires (rest != [] ==> IsHunk(rest[0])) && preamble <= rest && NoneStarts(preamble)
    ensures preamble == []
  {
    if preamble != [] { StartIsHunk(rest[0]); }
  }

  // ---- Why a patch is refused ----

  /** The lines are well-formed, and their old lines stand in the file from position `at` on. */
  predicate Passes(lines: seq<string>, at: int, body: seq<string>)
    requires at >= -1
  {
    ReadBody(body).Some? && BlockFound(lines, at, Old(ReadBody(body).value))
  }

  /** This line, met at position `at`, is why: it begins with none of the four characters, or it is kept or deleted and
      not the one in the file. */
  predicate LineFails(lines: seq<string>, at: int, line: string, e: DiffError)
    requires at >= -1
  {
    if line == "" || (line[0] != ' ' && line[0] != '-' && line[0] != '+' && line[0] != '\\') then e == InvalidLine
    else
      && (line[0] == ' ' || line[0] == '-') && !LineIs(lines, at, line[1..])
      && e == if at == -1 && lines == [] then IndexError else if line[0] == ' ' then ContextMismatch else DeleteMismatch
  }

  /** Line `l` is the first of the hunk that does not pass. */
  predicate BodyFails(lines: seq<string>, at: int, body: seq<string>, l: nat, e: DiffError)
    requires at >= -1
  {
    && l < |body| && Passes(lines, at, body[..l])
    && LineFails(lines, at + |Old(ReadBody(body[..l]).value)|, body[l], e)
  }

  ghost predicate SomeLineFails(lines: seq<string>, at: int, body: seq<string>, e: DiffError)
    requires at >= -1
  {
    exists l :: BodyFails(lines, at, body, l, e)
  }

  /** The hunk has no header, or a line of it fails. */
  ghost predicate SectionFails(lines: seq<string>, section: seq<string>, e: DiffError)
    requires section != []
  {
    match ParseHeader(section[0])
    case None => e == InvalidHeader
    case Some(start) => SomeLineFails(lines, start - 1, section[1..], e)
  }

  predicate SectionPasses(lines: seq<string>, section: seq<string>)
    requires section != []
  {
    ParseHeader(section[0]).Some? && Passes(lines, ParseHeader(section[0]).value - 1, section[1..])
  }

  /** Hunk `h` is the first that does not pass. */
  ghost predicate HunkFails(lines: seq<string>, sections: seq<seq<string>>, h: nat, e: DiffError)
    requires forall i :: 0 <= i < |sections| ==> sections[i] != []
  {
    && h < |sections| && SectionFails(lines, sections[h], e)
    && forall g :: 0 <= g < h ==> SectionPasses(lines, sections[g])
  }

  lemma LineFailsExactly(lines: seq<string>, out: seq<string>, at: int, line: string, e: DiffError)
    requires at >= -1
    ensures ApplyLine(lines, State(out, at), line) == Failure(e) <==> LineFails(lines, at, line, e)
  {
  }

  /** Lines that pass are applied. */
  lemma {:induction false} PassesExactly(lines: seq<string>, out: seq<string>, at: int, body: seq<string>)
    requires at >= -1
    ensures var r := ApplyBody(lines, State(out, at), body);
            && (r.Success? <==> Passes(lines, at, body))
            && (r.Success? ==> r.value.source == at + |Old(ReadBody(body).value)|)
  {
    if ReadBody(body).None? {
      UnreadableFails(lines, State(out, at), body);
    } else {
      ReadBodyRenders(body);
      BodyExact(lines, out, at, ReadBody(body).value);
    }
  }

  /** Applying lines and then one more. */
  lemma {:induction false} FailsAt(lines: seq<string>, st: State, body: seq<string>, l: nat, e: DiffError)
    requires l < |body| && ApplyBody(lines, st, body[..l]).Success?
    requires ApplyLine(lines, ApplyBody(lines, st, body[..l]).value, body[l]) == Failure(e)
    ensures ApplyBody(lines, st, body) == Failure(e)
    decreases l
  {
    if l > 0 {
      var next := ApplyLine(lines, st, body[0]).value;
      assert body[..l][1..] == body[1..][..l - 1] && body[..l][0] == body[0] && body[1..][l - 1] == body[l];
      FailsAt(lines, next, body[1..], l - 1, e);
    }
  }

  lemma {:induction false} FirstFailure(lines: seq<string>, st: State, body: seq<string>) returns (l: nat)
    requires ApplyBody(lines, st, body).Failure?
    ensures l < |body| && ApplyBody(lines, st, body[..l]).Success?
    ensures ApplyLine(lines, ApplyBody(lines, st, body[..l]).value, body[l])
              == Failure(ApplyBody(lines, st, body).error)
    decreases |body|
  {
    var next := ApplyLine(lines, st, body[0]);
    if next.Failure? {
      l := 0;
      assert body[..0] == [];
    } else {
      var k := FirstFailure(lines, next.value, body[1..]);
      l := k + 1;
      assert body[..l][1..] == body[1..][..k] && body[..l][0] == body[0] && body[1..][k] == body[l];
    }
  }

  lemma {:induction false} BodyFailsExactly(lines: seq<string>, out: seq<string>, at: int, body: seq<string>,
                                            e: DiffError)
    requires at >= -1
    ensures ApplyBody(lines, State(out, at), body) == Failure(e) <==> SomeLineFails(lines, at, body, e)
  {
    if ApplyBody(lines, State(out, at), body) == Failure(e) {
      var l := FirstFailure(lines, State(out, at), body);
      StoppedHere(lines, out, at, body, l, e);
    }
    if l :| BodyFails(lines, at, body, l, e) {
      StoppedHere(lines, out, at, body, l, e);
      FailsAt(lines, State(out, at), body, l, e);
    }
  }

  lemma {:induction false} StoppedHere(lines: seq<string>, out: seq<string>, at: int, body: seq<string>, l: nat,
                                       e: DiffError)
    requires at >= -1 && l < |body|
    ensures var r := ApplyBody(lines, State(out, at), body[..l]);
            BodyFails(lines, at, body, l, e) <==> r.Success? && ApplyLine(lines, r.value, body[l]) == Failure(e)
  {
    PassesExactly(lines, out, at, body[..l]);
    var r := ApplyBody(lines, State(out, at), body[..l]);
    if r.Success? { LineFailsExactly(lines, r.value.output, r.value.source, body[l], e); }
  }

  lemma {:induction false} AppliedExactly(lines: seq<string>, st: State, start: nat, body: seq<string>, e: DiffError)
    ensures ApplyAt(lines, st, start, body).Success? <==> Passes(lines, start - 1, body)
    ensures ApplyAt(lines, st, start, body) == Failure(e) <==> SomeLineFails(lines, start - 1, body, e)
  {
    var out := st.output + Slice(lines, st.source, start - 1);
    PassesExactly(lines, out, start - 1, body);
    BodyFailsExactly(lines, out, start - 1, body, e);
  }

  lemma {:induction false} SectionExactly(lines: seq<string>, st: State, section: seq<string>, e: DiffError)
    requires section != []
    ensures ApplySection(lines, st, section).Success? <==> SectionPasses(lines, section)
    ensures ApplySection(lines, st, section) == Failure(e) <==> SectionFails(lines, section, e)
  {
    var start := ParseHeader(section[0]);
    if start.Some? { AppliedExactly(lines, st, start.value, section[1..], e); }
  }

  ghost predicate SomeHunkFails(lines: seq<string>, sections: seq<seq<string>>, e: DiffError)
    requires forall i :: 0 <= i < |sections| ==> sections[i] != []
  {
    exists h :: HunkFails(lines, sections, h, e)
  }

  lemma {:induction false} SectionsFail(lines: seq<string>, st: State, sections: seq<seq<string>>, e: DiffError)
    requires forall i :: 0 <= i < |sections| ==> sections[i] != []
    ensures ApplySections(lines, st, sections) == Failure(e) <==> SomeHunkFails(lines, sections, e)
    decreases |sections|
  {
    if sections != [] {
      var first := ApplySection(lines, st, sections[0]);
      SectionExactly(lines, st, sections[0], e);
      if first.Success? {
        SectionsFail(lines, first.value, sections[1..], e);
        FailsLater(lines, sections, e);
      } else {
        FailsFirst(lines, sections, e);
      }
    }
  }

  /** If the first hunk passes, a later one fails. */
  lemma {:induction false} FailsLater(lines: seq<string>, sections: seq<seq<string>>, e: DiffError)
    requires forall i :: 0 <= i < |sections| ==> sections[i] != []
    requires sections != [] && SectionPasses(lines, sections[0]) && !SectionFails(lines, sections[0], e)
    ensures SomeHunkFails(lines, sections, e) <==> SomeHunkFails(lines, sections[1..], e)
  {
    if SomeHunkFails(lines, sections[1..], e) {
      var h: nat :| HunkFails(lines, sections[1..], h, e);
      LaterHunk(lines, sections, h, e);
    } else if SomeHunkFails(lines, sections, e) {
      var h: nat :| HunkFails(lines, sections, h, e);
      if h > 0 {
        var g: nat := h - 1;
        LaterHunk(lines, sections, g, e);
      }
    }
  }

  /** If it does not, it is the one. */
  lemma {:induction false} FailsFirst(lines: seq<string>, sections: seq<seq<string>>, e: DiffError)
    requires forall i :: 0 <= i < |sections| ==> sections[i] != []
    requires sections != [] && !SectionPasses(lines, sections[0])
    ensures SomeHunkFails(lines, sections, e) <==> SectionFails(lines, sections[0], e)
  {
    if SectionFails(lines, sections[0], e) { assert HunkFails(lines, sections, 0, e); }
    if h :| HunkFails(lines, sections, h, e) { assert h == 0; }
  }

  lemma {:induction false} LaterHunk(lines: seq<string>, sections: seq<seq<string>>, h: nat, e: DiffError)
    requires forall i :: 0 <= i < |sections| ==> sections[i] != []
    requires sections != [] && SectionPasses(lines, sections[0])
    ensures HunkFails(lines, sections, h + 1, e) <==> HunkFails(lines, sections[1..], h, e)
  {
    var rest := sections[1..];
    assert forall g :: 0 <= g < |rest| ==> rest[g] == sections[g + 1];
    if HunkFails(lines, rest, h, e) {
      forall g | 0 <= g < h + 1 ensures SectionPasses(lines, sections[g]) {
        if g > 0 { assert SectionPasses(lines, rest[g - 1]); }
      }
    }
    if HunkFails(lines, sections, h + 1, e) {
      forall g | 0 <= g < h ensures SectionPasses(lines, rest[g]) { assert SectionPasses(lines, sections[g + 1]); }
    }
  }

  /** Exactly why a patch is refused: it has no hunk; or the first hunk that does not pass has no header, or has a line,
      the first that does not pass, that is malformed, or kept or deleted but not in the file. */
  lemma {:induction false} RefusesExactly(lines: seq<string>, patch: seq<string>, e: DiffError)
    ensures ApplyLines(lines, patch) == Failure(e) <==>
              if Sections(patch) == [] then e == InvalidUnifiedDiff
              else SomeHunkFails(lines, Sections(patch), e)
  {
    SectionsFail(lines, State([], 0), Sections(patch), e);
  }
}
