/** Header detection, `splitSections` and `pickSection`: the resume's lines
    cut into titled sections. */
module Sections {
  import opened Text
  import opened Wrappers

  datatype Section = Section(title: string, lines: seq<string>)

  /** The characters `replace(/[^A-Za-z: ]/g, '')` keeps. */
  predicate IsHeaderChar(c: char) { IsLetter(c) || c == ':' || c == ' ' }

  function KeepHeaderChars(s: string): (r: string)
    ensures |r| <= |s|
    decreases |s|
  {
    if |s| == 0 then ""
    else (if IsHeaderChar(s[0]) then [s[0]] else "") + KeepHeaderChars(s[1..])
  }

  /** A character survives the filter exactly when it is in the line and is
      a letter, a colon or a space. */
  lemma {:induction false} KeepHeaderCharsIff(s: string, c: char)
    ensures c in KeepHeaderChars(s) <==> c in s && IsHeaderChar(c)
    decreases |s|
  {
    if |s| > 0 {
      KeepHeaderCharsIff(s[1..], c);
      assert s == [s[0]] + s[1..];
    }
  }

  /** `/:\s*$/.test(s)`: a colon followed by nothing but whitespace. */
  predicate EndsWithColon(s: string)
    decreases |s|
  {
    |s| > 0 && (s[|s| - 1] == ':' || (IsSpace(s[|s| - 1]) && EndsWithColon(s[..|s| - 1])))
  }

  /** `isSectionHeader`: a non-empty line that is all capitals once every
      character but letters, colons and spaces is dropped (and something
      other than spaces is left), or that ends with a colon. */
  predicate IsSectionHeader(line: string) {
    line != "" && (IsAllCaps(KeepHeaderChars(line)) || EndsWithColon(line))
  }

  /** `noPunct.trim() && noPunct === noPunct.toUpperCase()`. */
  predicate IsAllCaps(noPunct: string) {
    Trim(noPunct) != "" && noPunct == ToUpper(noPunct)
  }

  /** Some character is a letter or a colon. */
  predicate HasCapsMark(s: string)
    decreases |s|
  {
    |s| > 0 && (IsLetter(s[0]) || s[0] == ':' || HasCapsMark(s[1..]))
  }

  /** No character is a lower-case ASCII letter. */
  predicate NoLowerCase(s: string)
    decreases |s|
  {
    |s| == 0 || (!IsLower(s[0]) && NoLowerCase(s[1..]))
  }

  /** The test `splitSections` applies, `isSectionHeader(l) && l.length < 60`,
      written as one pass over the line (`HeaderLineIsSectionHeader` shows it
      is the same test). */
  predicate IsHeaderLine(line: string) {
    line != "" && ((HasCapsMark(line) && NoLowerCase(line)) || EndsWithColon(line)) && |line| < 60
  }

  lemma {:induction false} HasCapsMarkIff(s: string)
    ensures HasCapsMark(s) <==> exists c :: c in s && (IsLetter(c) || c == ':')
    decreases |s|
  {
    if |s| > 0 {
      HasCapsMarkIff(s[1..]);
      assert s == [s[0]] + s[1..];
    }
  }

  lemma {:induction false} NoLowerCaseIff(s: string)
    ensures NoLowerCase(s) <==> forall c :: c in s ==> !IsLower(c)
    decreases |s|
  {
    if |s| > 0 {
      NoLowerCaseIff(s[1..]);
      assert s == [s[0]] + s[1..];
    }
  }

  /** The one-pass test is `isSectionHeader` with the length bound. */
  lemma HeaderLineIsSectionHeader(line: string)
    ensures IsHeaderLine(line) <==> IsSectionHeader(line) && |line| < 60
  {
    HeaderCharacterisation(line);
    HasCapsMarkIff(line);
    NoLowerCaseIff(line);
  }

  /** `l.replace(/:$/, '').trim()`: one trailing colon dropped, then trimmed. */
  function HeaderTitle(line: string): string {
    Trim(if |line| > 0 && line[|line| - 1] == ':' then line[..|line| - 1] else line)
  }

  /** The header test in plain terms: the line has a letter or a colon and
      no lower-case ASCII letter, or it ends with a colon and whitespace. */
  lemma HeaderCharacterisation(line: string)
    ensures IsSectionHeader(line) <==>
      line != "" &&
      (((exists c :: c in line && (IsLetter(c) || c == ':')) && (forall c :: c in line ==> !IsLower(c)))
       || EndsWithColon(line))
  {
    NotBlank(line);
    NoLower(line);
    UpperUnchanged(KeepHeaderChars(line));
  }

  /** What is left after the filter is not blank exactly when the line has a
      letter or a colon. */
  lemma NotBlank(line: string)
    ensures Trim(KeepHeaderChars(line)) != "" <==> exists c :: c in line && (IsLetter(c) || c == ':')
  {
    var noPunct := KeepHeaderChars(line);
    TrimEmpty(noPunct);
    if exists c :: c in line && (IsLetter(c) || c == ':') {
      var c :| c in line && (IsLetter(c) || c == ':');
      KeepHeaderCharsIff(line, c);
      var k :| 0 <= k < |noPunct| && noPunct[k] == c;
      assert !IsSpace(noPunct[k]);
    }
    if Trim(noPunct) != "" {
      var k :| 0 <= k < |noPunct| && !IsSpace(noPunct[k]);
      KeepHeaderCharsIff(line, noPunct[k]);
      assert noPunct[k] in line;
    }
  }

  /** What is left after the filter has no lower-case letter exactly when
      the line has none. */
  lemma NoLower(line: string)
    ensures !HasLower(KeepHeaderChars(line)) <==> forall c :: c in line ==> !IsLower(c)
  {
    var noPunct := KeepHeaderChars(line);
    if exists c :: c in line && IsLower(c) {
      var c :| c in line && IsLower(c);
      KeepHeaderCharsIff(line, c);
      var k :| 0 <= k < |noPunct| && noPunct[k] == c;
      assert IsLower(noPunct[k]);
    }
    if HasLower(noPunct) {
      var k :| 0 <= k < |noPunct| && IsLower(noPunct[k]);
      KeepHeaderCharsIff(line, noPunct[k]);
      assert noPunct[k] in line;
    }
  }

  /** The lines that are not headers, in order. */
  function NonHeaders(lines: seq<string>): (r: seq<string>)
    ensures |r| <= |lines|
    decreases |lines|
  {
    if |lines| == 0 then []
    else NonHeaders(lines[..|lines| - 1]) + (if IsHeaderLine(lines[|lines| - 1]) then [] else [lines[|lines| - 1]])
  }

  /** All lines of all sections, in order. */
  function AllLines(sections: seq<Section>): seq<string>
    decreases |sections|
  {
    if |sections| == 0 then [] else AllLines(sections[..|sections| - 1]) + sections[|sections| - 1].lines
  }

  /** The titles of the header lines, in order. */
  function HeaderTitles(lines: seq<string>): (r: seq<string>)
    ensures |r| <= |lines|
    decreases |lines|
  {
    if |lines| == 0 then []
    else
      var l := lines[|lines| - 1];
      HeaderTitles(lines[..|lines| - 1]) + (if IsHeaderLine(l) then [HeaderTitle(l)] else [])
  }

  /** A line has no header title exactly when none of the lines is a header. */
  lemma {:induction false} NoHeaderTitles(lines: seq<string>)
    ensures HeaderTitles(lines) == [] <==> forall j :: 0 <= j < |lines| ==> !IsHeaderLine(lines[j])
    decreases |lines|
  {
    if |lines| > 0 {
      var init := lines[..|lines| - 1];
      NoHeaderTitles(init);
      assert forall j :: 0 <= j < |init| ==> init[j] == lines[j];
    }
  }

  /** One more line extends both the header titles and the body lines. */
  lemma Extend(lines: seq<string>, i: nat)
    requires i < |lines|
    ensures HeaderTitles(lines[..i + 1]) ==
      HeaderTitles(lines[..i]) + (if IsHeaderLine(lines[i]) then [HeaderTitle(lines[i])] else [])
    ensures NonHeaders(lines[..i + 1]) == NonHeaders(lines[..i]) + (if IsHeaderLine(lines[i]) then [] else [lines[i]])
  {
    assert lines[..i + 1][..i] == lines[..i];
  }

  /** `splitSections`: every header line opens a new section and belongs to
      none; a section is emitted only when it has a line. The sections'
      lines, concatenated, are exactly the non-header lines in order; the
      first section may be the `INTRO` sentinel and every other one is titled
      by a header; without headers the result is at most one `INTRO`. */
  method SplitSections(lines: seq<string>) returns (sections: seq<Section>)
    ensures sections == SectionsOf(lines)
    ensures AllLines(sections) == NonHeaders(lines)
    ensures forall k :: 0 <= k < |sections| ==> |sections[k].lines| > 0
    ensures forall k :: 0 <= k < |sections| ==>
      (k == 0 && sections[k].title == "INTRO") || sections[k].title in HeaderTitles(lines)
    ensures HeaderTitles(lines) == [] ==>
      sections == (if lines == [] then [] else [Section("INTRO", lines)])
  {
    var title, body;
    sections, title, body := SplitLoop(lines);
    Finish(lines, sections, title, body);
    if |body| > 0 {
      sections := sections + [Section(title, body)];
    }
  }

  /** The loop of `splitSections`, up to the push of the last section. */
  method SplitLoop(lines: seq<string>) returns (sections: seq<Section>, title: string, body: seq<string>)
    ensures SplitInv(lines, |lines|, sections, title, body)
    ensures SplitState(lines) == SplitAt(sections, title, body)
  {
    sections := [];
    title, body := "INTRO", [];
    for i := 0 to |lines|
      invariant SplitInv(lines, i, sections, title, body)
      invariant SplitState(lines[..i]) == SplitAt(sections, title, body)
    {
      StepBoth(lines, i, sections, title, body);
      sections, title, body := Feed(sections, title, body, lines[i]);
    }
    assert lines[..|lines|] == lines;
  }

  /** One line of the `splitSections` loop. */
  method Feed(sections: seq<Section>, title: string, body: seq<string>, l: string)
    returns (sections': seq<Section>, title': string, body': seq<string>)
    ensures SplitAt(sections', title', body') == Next(SplitAt(sections, title, body), l)
  {
    sections', title', body' := sections, title, body;
    if IsHeaderLine(l) {
      if |body| > 0 {
        sections' := sections + [Section(title, body)];
      }
      title', body' := HeaderTitle(l), [];
    } else {
      body' := body + [l];
    }
  }

  /** One line moves both the loop invariant and the specified state to
      `Next` of the current state. */
  lemma StepBoth(lines: seq<string>, i: nat, sections: seq<Section>, title: string, body: seq<string>)
    requires i < |lines|
    requires SplitInv(lines, i, sections, title, body)
    requires SplitState(lines[..i]) == SplitAt(sections, title, body)
    ensures var st := Next(SplitAt(sections, title, body), lines[i]);
      SplitInv(lines, i + 1, st.closed, st.title, st.body) && SplitState(lines[..i + 1]) == st
  {
    StateStep(lines, i);
    if IsHeaderLine(lines[i]) {
      var next := if |body| > 0 then sections + [Section(title, body)] else sections;
      StepHeader(lines, i, sections, title, body, next);
    } else {
      StepLine(lines, i, sections, title, body);
    }
  }

  /** The state of the `splitSections` loop: the closed sections, and the
      title and lines of the open one. */
  datatype SplitAt = SplitAt(closed: seq<Section>, title: string, body: seq<string>)

  /** The state after a run of lines: a header closes the open section
      when it has lines and opens one under its own title; any other line
      goes into the open section. */
  function SplitState(lines: seq<string>): SplitAt
    decreases |lines|
  {
    if |lines| == 0 then SplitAt([], "INTRO", [])
    else Next(SplitState(lines[..|lines| - 1]), lines[|lines| - 1])
  }

  /** One line of the loop. */
  function Next(st: SplitAt, l: string): SplitAt {
    if IsHeaderLine(l) then
      SplitAt(if |st.body| > 0 then st.closed + [Section(st.title, st.body)] else st.closed, HeaderTitle(l), [])
    else SplitAt(st.closed, st.title, st.body + [l])
  }

  lemma StateStep(lines: seq<string>, i: nat)
    requires i < |lines|
    ensures SplitState(lines[..i + 1]) == Next(SplitState(lines[..i]), lines[i])
  {
    assert lines[..i + 1][..i] == lines[..i];
  }

  /** What `splitSections` returns: the closed sections, then the open one
      when it has lines. */
  function SectionsOf(lines: seq<string>): seq<Section> {
    var st := SplitState(lines);
    if |st.body| > 0 then st.closed + [Section(st.title, st.body)] else st.closed
  }

  /** The state of `splitSections` after the first `i` lines. */
  ghost predicate SplitInv(lines: seq<string>, i: nat, sections: seq<Section>, title: string, body: seq<string>) {
    && LinesSoFar(lines, i, sections, body)
    && NonEmpty(sections)
    && TitledSoFar(lines, i, sections, title)
    && IntroSoFar(lines, i, sections, title, body)
  }

  /** A header line closes the open section, if it has lines, and opens one
      under the header's title. */
  lemma StepHeader(lines: seq<string>, i: nat, sections: seq<Section>, title: string, body: seq<string>,
                   next: seq<Section>)
    requires i < |lines| && IsHeaderLine(lines[i])
    requires SplitInv(lines, i, sections, title, body)
    requires next == if |body| > 0 then sections + [Section(title, body)] else sections
    ensures SplitInv(lines, i + 1, next, HeaderTitle(lines[i]), [])
  {
    LinesAtHeader(lines, i, sections, title, body, next);
    TitledAtHeader(lines, i, sections, title, body, next);
    IntroAtHeader(lines, i, next, HeaderTitle(lines[i]));
  }

  /** Any other line joins the open section. */
  lemma StepLine(lines: seq<string>, i: nat, sections: seq<Section>, title: string, body: seq<string>)
    requires i < |lines| && !IsHeaderLine(lines[i])
    requires SplitInv(lines, i, sections, title, body)
    ensures SplitInv(lines, i + 1, sections, title, body + [lines[i]])
  {
    LinesAtLine(lines, i, sections, body);
    TitledAtLine(lines, i, sections, title);
    IntroAtLine(lines, i, sections, title, body);
  }

  /** The sections closed so far and the open one's lines are the non-header
      lines among the first `i`. */
  ghost predicate LinesSoFar(lines: seq<string>, i: nat, sections: seq<Section>, body: seq<string>) {
    i <= |lines| && AllLines(sections) + body == NonHeaders(lines[..i])
  }

  predicate NonEmpty(sections: seq<Section>) {
    forall k :: 0 <= k < |sections| ==> |sections[k].lines| > 0
  }

  /** Every closed section and the open one are titled `INTRO` (only the
      first) or by a header among the first `i` lines. */
  ghost predicate TitledSoFar(lines: seq<string>, i: nat, sections: seq<Section>, title: string) {
    && i <= |lines|
    && (forall k :: 0 <= k < |sections| ==>
         (k == 0 && sections[k].title == "INTRO") || sections[k].title in HeaderTitles(lines[..i]))
    && ((sections == [] && title == "INTRO") || title in HeaderTitles(lines[..i]))
  }

  /** Until a header is met, everything is in the open `INTRO` section. */
  ghost predicate IntroSoFar(lines: seq<string>, i: nat, sections: seq<Section>, title: string, body: seq<string>) {
    i <= |lines| && (HeaderTitles(lines[..i]) == [] ==> sections == [] && title == "INTRO" && body == lines[..i])
  }

  lemma LinesAtHeader(lines: seq<string>, i: nat, sections: seq<Section>, title: string, body: seq<string>,
                      next: seq<Section>)
    requires i < |lines| && IsHeaderLine(lines[i])
    requires LinesSoFar(lines, i, sections, body)
    requires next == if |body| > 0 then sections + [Section(title, body)] else sections
    ensures LinesSoFar(lines, i + 1, next, [])
  {
    Extend(lines, i);
    Close(sections, title, body);
  }

  lemma LinesAtLine(lines: seq<string>, i: nat, sections: seq<Section>, body: seq<string>)
    requires i < |lines| && !IsHeaderLine(lines[i])
    requires LinesSoFar(lines, i, sections, body)
    ensures LinesSoFar(lines, i + 1, sections, body + [lines[i]])
  {
    Extend(lines, i);
  }

  lemma TitledAtHeader(lines: seq<string>, i: nat, sections: seq<Section>, title: string, body: seq<string>,
                       next: seq<Section>)
    requires i < |lines| && IsHeaderLine(lines[i])
    requires TitledSoFar(lines, i, sections, title)
    requires next == if |body| > 0 then sections + [Section(title, body)] else sections
    ensures TitledSoFar(lines, i + 1, next, HeaderTitle(lines[i]))
  {
    Extend(lines, i);
  }

  lemma TitledAtLine(lines: seq<string>, i: nat, sections: seq<Section>, title: string)
    requires i < |lines| && !IsHeaderLine(lines[i])
    requires TitledSoFar(lines, i, sections, title)
    ensures TitledSoFar(lines, i + 1, sections, title)
  {
    Extend(lines, i);
  }

  lemma IntroAtHeader(lines: seq<string>, i: nat, sections: seq<Section>, title: string)
    requires i < |lines| && IsHeaderLine(lines[i])
    ensures IntroSoFar(lines, i + 1, sections, title, [])
  {
    Extend(lines, i);
  }

  lemma IntroAtLine(lines: seq<string>, i: nat, sections: seq<Section>, title: string, body: seq<string>)
    requires i < |lines| && !IsHeaderLine(lines[i])
    requires IntroSoFar(lines, i, sections, title, body)
    ensures IntroSoFar(lines, i + 1, sections, title, body + [lines[i]])
  {
    Extend(lines, i);
    assert lines[..i + 1] == lines[..i] + [lines[i]];
  }

  /** Closing the last open section gives what `SplitSections` promises. */
  lemma Finish(lines: seq<string>, sections: seq<Section>, title: string, body: seq<string>)
    requires LinesSoFar(lines, |lines|, sections, body)
    requires TitledSoFar(lines, |lines|, sections, title)
    requires IntroSoFar(lines, |lines|, sections, title, body)
    ensures AllLines(if |body| > 0 then sections + [Section(title, body)] else sections) == NonHeaders(lines)
    ensures forall k :: 0 <= k < |sections| ==>
      (k == 0 && sections[k].title == "INTRO") || sections[k].title in HeaderTitles(lines)
    ensures |body| > 0 ==> (sections == [] && title == "INTRO") || title in HeaderTitles(lines)
    ensures HeaderTitles(lines) == [] ==> sections == [] && title == "INTRO" && body == lines
  {
    assert lines[..|lines|] == lines;
    Close(sections, title, body);
  }

  /** A section's line is a line of the input: `splitSections` makes up
      no line. */
  lemma SectionLineIsInput(lines: seq<string>, k: nat, j: nat)
    requires k < |SectionsOf(lines)| && j < |SectionsOf(lines)[k].lines|
    ensures SectionsOf(lines)[k].lines[j] in lines
  {
    var st := SplitState(lines);
    InvUpTo(lines, |lines|);
    assert lines[..|lines|] == lines;
    Finish(lines, st.closed, st.title, st.body);
    var x := SectionsOf(lines)[k].lines[j];
    InAllLines(SectionsOf(lines), k, j);
    NonHeaderIsInput(lines, x);
  }

  /** The loop invariant holds of the state after the first `i` lines. */
  lemma {:induction false} InvUpTo(lines: seq<string>, i: nat)
    requires i <= |lines|
    ensures var st := SplitState(lines[..i]); SplitInv(lines, i, st.closed, st.title, st.body)
    decreases i
  {
    if i == 0 {
      assert lines[..0] == [];
    } else {
      InvUpTo(lines, i - 1);
      var st := SplitState(lines[..i - 1]);
      StepBoth(lines, i - 1, st.closed, st.title, st.body);
    }
  }

  lemma {:induction false} InAllLines(sections: seq<Section>, k: nat, j: nat)
    requires k < |sections| && j < |sections[k].lines|
    ensures sections[k].lines[j] in AllLines(sections)
    decreases |sections|
  {
    var n := |sections| - 1;
    Close(sections[..n], sections[n].title, sections[n].lines);
    assert sections[..n] + [Section(sections[n].title, sections[n].lines)] == sections;
    if k < n {
      InAllLines(sections[..n], k, j);
    } else {
      assert sections[k].lines[j] == (AllLines(sections[..n]) + sections[n].lines)[|AllLines(sections[..n])| + j];
    }
  }

  lemma {:induction false} NonHeaderIsInput(lines: seq<string>, x: string)
    requires x in NonHeaders(lines)
    ensures x in lines
    decreases |lines|
  {
    if lines != [] {
      var n := |lines| - 1;
      if x in NonHeaders(lines[..n]) {
        NonHeaderIsInput(lines[..n], x);
        assert lines[..n] <= lines;
      } else {
        assert x == lines[n];
      }
    }
  }

  lemma Close(sections: seq<Section>, title: string, body: seq<string>)
    ensures AllLines(sections + [Section(title, body)]) == AllLines(sections) + body
  {
    assert (sections + [Section(title, body)])[..|sections|] == sections;
  }

  /** A title names a section the caller wants when its lower-case form
      contains one of the keywords. */
  predicate TitleMatches(s: Section, names: seq<string>) {
    ContainsAny(ToLower(s.title), names)
  }

  /** `sections.findIndex(...)` started at `from`: the first index at or
      after `from` whose title matches, or `None` when no later title does. */
  function FindSection(sections: seq<Section>, names: seq<string>, from: nat): (r: Option<nat>)
    requires from <= |sections|
    ensures r.Some? ==> from <= r.value < |sections| && TitleMatches(sections[r.value], names)
                        && forall j :: from <= j < r.value ==> !TitleMatches(sections[j], names)
    ensures r.None? ==> forall j :: from <= j < |sections| ==> !TitleMatches(sections[j], names)
    decreases |sections| - from
  {
    if from == |sections| then None
    else if TitleMatches(sections[from], names) then Some(from)
    else FindSection(sections, names, from + 1)
  }

  /** `pickSection`: the first section whose title matches, if any. */
  function PickSection(sections: seq<Section>, names: seq<string>): (r: Option<Section>)
    ensures r.None? <==> forall k :: 0 <= k < |sections| ==> !TitleMatches(sections[k], names)
    ensures r.Some? ==> r.value in sections && TitleMatches(r.value, names)
    ensures r.Some? ==>
      exists k :: 0 <= k < |sections| && sections[k] == r.value && forall j :: 0 <= j < k ==> !TitleMatches(sections[j], names)
  {
    match FindSection(sections, names, 0)
    case Some(k) => Some(sections[k])
    case None => None
  }
}
