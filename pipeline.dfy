/** `main`: the lines of the two PDFs become the extraction (contact
    details, the `about` object and the case-study stubs), which is merged
    into the content document after the document has been backed up. The
    file system, the PDF reader and the clock are parameters: a PDF is the
    text it yields, or nothing when it is not found; the content file is
    the document `JSON.parse` gives, or nothing when it cannot be read or
    parsed. */
module Pipeline {
  import opened Text
  import opened Wrappers
  import opened Lists
  import opened Json
  import opened Sections
  import opened Normalizer
  import opened Contacts
  import opened Skills
  import opened Summary
  import Experience
  import Education
  import CaseStudies
  import opened Content

  // ---------------------------------------------------------------------
  // The `about` object

  /** An array of strings. */
  function StrArr(xs: seq<string>): Json {
    JArr(seq(|xs|, i requires 0 <= i < |xs| => JStr(xs[i])))
  }

  /** `{ category, items }`. */
  function SkillJson(g: SkillGroup): Json {
    JObj([("category", JStr(g.category)), ("items", StrArr(g.items))])
  }

  /** `{ role, company, duration, location, responsibilities }`. */
  function ExperienceJson(e: Experience.Entry): Json {
    JObj([("role", JStr(e.role)), ("company", JStr(e.company)), ("duration", JStr(e.duration)),
          ("location", JStr(e.location)), ("responsibilities", StrArr(e.responsibilities))])
  }

  /** `{ degree, institution, duration, description }`. */
  function EducationJson(e: Education.Entry): Json {
    JObj([("degree", JStr(e.degree)), ("institution", JStr(e.institution)), ("duration", JStr(e.duration)),
          ("description", JStr(e.description))])
  }

  const AboutTitle: string := "About Tony Destin"
  const HeadshotSrc: string := "/images/about/headshot.jpg"
  const HeadshotAlt: string := "Tony headshot"
  const FocusQuestion: string := "What do you focus on?"
  const FocusAnswer: string := "<p>I ship MVPs fast, then iterate. I pick the simplest path that scales.</p>"
  const WorkQuestion: string := "How do you work?"
  const WorkAnswer: string := "<p>Small scopes, tight loops, visible results. I document as I build.</p>"

  /** The two fixed questions and answers. */
  function Faqs(): Json {
    JArr([
      JObj([("question", JStr(FocusQuestion)), ("answer", JStr(FocusAnswer))]),
      JObj([("question", JStr(WorkQuestion)), ("answer", JStr(WorkAnswer))])
    ])
  }

  /** The fields of the new `about` object, in the source's order. */
  function AboutFields(summary: string, skills: seq<SkillGroup>, exps: seq<Experience.Entry>,
                       edus: seq<Education.Entry>): seq<(string, Json)> {
    [("title", JStr(AboutTitle)),
     ("summary", JStr(summary)),
     ("headshot", JObj([("src", JStr(HeadshotSrc)), ("alt", JStr(HeadshotAlt))])),
     ("skills", JArr(Map(skills, SkillJson))),
     ("experience", JArr(Map(exps, ExperienceJson))),
     ("education", JArr(Map(edus, EducationJson))),
     ("faqs", Faqs())]
  }

  /** The `about` object has seven keys, none twice, in the source's order;
      its title and summary are the fixed title and the summary HTML. */
  lemma AboutFieldsShape(summary: string, skills: seq<SkillGroup>, exps: seq<Experience.Entry>,
                         edus: seq<Education.Entry>)
    ensures Keys(AboutFields(summary, skills, exps, edus)) ==
      ["title", "summary", "headshot", "skills", "experience", "education", "faqs"]
    ensures DistinctKeys(AboutFields(summary, skills, exps, edus))
    ensures Lookup(AboutFields(summary, skills, exps, edus), "title") == JStr(AboutTitle)
    ensures Lookup(AboutFields(summary, skills, exps, edus), "summary") == JStr(summary)
    ensures |AboutFields(summary, skills, exps, edus)| == 7
    ensures AboutFields(summary, skills, exps, edus)[0] == ("title", JStr(AboutTitle))
    ensures AboutFields(summary, skills, exps, edus)[1] == ("summary", JStr(summary))
  {
    var f := AboutFields(summary, skills, exps, edus);
    assert Keys(f) == ["title", "summary", "headshot", "skills", "experience", "education", "faqs"];
  }

  // ---------------------------------------------------------------------
  // Picking the sections

  const SkillNames: seq<string> := ["skill", "tools"]
  const ExperienceNames: seq<string> := ["experience", "work"]
  const EducationNames: seq<string> := ["education", "study"]
  const SummaryNames: seq<string> := ["summary", "objective", "profile"]

  /** The section titled exactly `INTRO`: `sections.find(...)`. */
  predicate IsIntro(s: Section) { s.title == "INTRO" }

  /** The lines summarised: those of the first summary-like section, else
      those of the first `INTRO` section, else all the resume's lines. */
  function SummaryLines(sections: seq<Section>, resumeLines: seq<string>): seq<string> {
    match PickSection(sections, SummaryNames)
    case Some(s) => s.lines
    case None =>
      match FirstWhere(sections, IsIntro)
      case Some(i) => sections[i].lines
      case None => resumeLines
  }

  /** The summary lines are lines of the resume. */
  lemma SummaryLinesFromResume(resumeLines: seq<string>, k: nat)
    requires k < |SummaryLines(SectionsOf(resumeLines), resumeLines)|
    ensures SummaryLines(SectionsOf(resumeLines), resumeLines)[k] in resumeLines
  {
    var sections := SectionsOf(resumeLines);
    match PickSection(sections, SummaryNames)
    case Some(s) =>
      var i :| 0 <= i < |sections| && sections[i] == s;
      SectionLineIsInput(resumeLines, i, k);
    case None =>
      match FirstWhere(sections, IsIntro)
      case Some(i) => SectionLineIsInput(resumeLines, i, k);
      case None =>
  }

  /** `main` as written puts into `about.summary` the summary the model
      computes with the guarded loop, with an empty paragraph in front
      exactly when the first sentence has 220 characters or more. */
  lemma SummaryAsWritten(resumeText: Option<string>)
    ensures var lines := SummaryLines(SectionsOf(LinesOf(resumeText)), LinesOf(resumeText));
      var ss := Sentences(SummaryText(lines));
      SummaryHtmlAsWritten(lines) == (if |ss[0]| >= MaxChunk then "<p></p>" else "") + SummaryHtml(lines)
  {
    var resumeLines := LinesOf(resumeText);
    var lines := SummaryLines(SectionsOf(resumeLines), resumeLines);
    forall k | 0 <= k < |lines| ensures lines[k] != "" && IsTrimmed(lines[k]) {
      SummaryLinesFromResume(resumeLines, k);
    }
    AsWrittenSummary(lines);
  }

  /** A word longer than the text does not occur in it. */
  lemma {:induction false} TooLong(s: string, w: string)
    requires |w| > |s|
    ensures !Contains(s, w)
    decreases |s|
  {
    if s != [] {
      TooLong(s[1..], w);
    }
  }

  /** A resume without header lines is summarised whole. */
  lemma SummaryWithoutHeaders(lines: seq<string>)
    requires forall k :: 0 <= k < |lines| ==> !IsHeaderLine(lines[k])
    ensures SummaryLines(SectionsOf(lines), lines) == lines
  {
    NoHeaderState(lines);
    if lines != [] {
      var sections := SectionsOf(lines);
      assert sections == [Section("INTRO", lines)];
      var lower := ToLower("INTRO");
      forall w | w in SummaryNames ensures !Contains(lower, w) {
        TooLong(lower, w);
      }
      assert !TitleMatches(sections[0], SummaryNames);
      assert IsIntro(sections[0]);
    }
  }

  /** Without header lines every line goes into the open `INTRO` section. */
  lemma {:induction false} NoHeaderState(lines: seq<string>)
    requires forall k :: 0 <= k < |lines| ==> !IsHeaderLine(lines[k])
    ensures SplitState(lines) == SplitAt([], "INTRO", lines)
    decreases |lines|
  {
    if lines != [] {
      var init := lines[..|lines| - 1];
      NoHeaderState(init);
      assert init + [lines[|lines| - 1]] == lines;
    }
  }

  // ---------------------------------------------------------------------
  // The extraction

  /** Everything `main` computes from the two PDFs' lines before it reads
      the content file; `year` is the current year. */
  function ExtractedOf(resumeLines: seq<string>, portfolioLines: seq<string>, year: nat): Extracted {
    var sections := SectionsOf(resumeLines);
    var about := AboutFields(
      SummaryHtml(SummaryLines(sections, resumeLines)),
      SkillsOf(PickSection(sections, SkillNames)),
      Experience.ExperienceOf(PickSection(sections, ExperienceNames)),
      Education.EducationOf(PickSection(sections, EducationNames)));
    Extracted(ExtractEmail(resumeLines), ExtractPhone(resumeLines), LocationGuess(resumeLines), about,
      Map(CaseStudies.Stubs(portfolioLines, year), CaseStudies.StubJson))
  }

  /** The lines of a PDF that was found, none for one that was not. */
  function LinesOf(text: Option<string>): seq<string> {
    if text.Some? then Normalize(text.value) else []
  }

  /** The extraction always meets what a second run needs: no `about` key
      twice and every stub's slug a string. */
  lemma ExtractedFit(resumeLines: seq<string>, portfolioLines: seq<string>, year: nat)
    ensures DistinctKeys(ExtractedOf(resumeLines, portfolioLines, year).about)
    ensures var cs := ExtractedOf(resumeLines, portfolioLines, year).caseStudies;
      forall j :: 0 <= j < |cs| ==> CaseStudies.SlugOf(cs[j]).JStr?
  {
    var sections := SectionsOf(resumeLines);
    AboutFieldsShape(SummaryHtml(SummaryLines(sections, resumeLines)),
      SkillsOf(PickSection(sections, SkillNames)),
      Experience.ExperienceOf(PickSection(sections, ExperienceNames)),
      Education.EducationOf(PickSection(sections, EducationNames)));
  }

  // ---------------------------------------------------------------------
  // The run

  /** The backup written before the merge. */
  datatype Backup = Backup(name: string, content: Json)

  /** How a run ends: no PDF found (nothing written); a failure, after the
      backup when the document was read; or the document updated. */
  datatype Outcome = NoPdf | Failed(saved: Option<Backup>) | Updated(backup: Backup, content: Json)

  /** The backup's file name for the clock reading `now` (milliseconds). */
  function BackupName(now: nat): string {
    "content.backup." + NatToString(now) + ".json"
  }

  /** What one run does, for the texts of the resume and the portfolio PDFs
      (if found), the content document (if readable), the clock and the
      year. */
  function RunSpec(resumeText: Option<string>, portfolioText: Option<string>, file: Option<Json>,
                   now: nat, year: nat): Outcome {
    if resumeText.None? && portfolioText.None? then NoPdf
    else MergeStep(ExtractedOf(LinesOf(resumeText), LinesOf(portfolioText), year), file, now)
  }

  /** The part of a run after the extraction: read the document, back it up,
      merge. */
  function MergeStep(x: Extracted, file: Option<Json>, now: nat): Outcome {
    if file.None? then Failed(None)
    else
      var backup := Backup(BackupName(now), file.value);
      match ContentOf(file.value, x)
      case TypeError => Failed(Some(backup))
      case Ok(merged) => Updated(backup, merged)
  }

  /** `main`, with the loops of the parsers. */
  method Run(resumeText: Option<string>, portfolioText: Option<string>, file: Option<Json>,
             now: nat, year: nat) returns (outcome: Outcome)
    ensures outcome == RunSpec(resumeText, portfolioText, file, now, year)
  {
    if resumeText.None? && portfolioText.None? {
      return NoPdf;
    }
    var x := Extract(LinesOf(resumeText), LinesOf(portfolioText), year);
    if file.None? {
      return Failed(None);
    }
    var backup := Backup(BackupName(now), file.value);
    var merged := ContentOf(file.value, x);
    if merged.TypeError? {
      return Failed(Some(backup));
    }
    outcome := Updated(backup, merged.value);
  }

  /** The extraction part of `main`, from the two PDFs' lines. */
  method Extract(resumeLines: seq<string>, portfolioLines: seq<string>, year: nat) returns (x: Extracted)
    ensures x == ExtractedOf(resumeLines, portfolioLines, year)
  {
    var sections := SplitSections(resumeLines);
    var email := ExtractEmail(resumeLines);
    var phone := ExtractPhone(resumeLines);
    var locationGuess := LocationGuess(resumeLines);
    var about := ParseAbout(sections, resumeLines);
    var caseStudies := Map(CaseStudies.Stubs(portfolioLines, year), CaseStudies.StubJson);
    x := Extracted(email, phone, locationGuess, about, caseStudies);
  }

  /** The `about` fields, from the resume's sections and lines. */
  method ParseAbout(sections: seq<Section>, resumeLines: seq<string>) returns (about: seq<(string, Json)>)
    ensures about == AboutFields(
      SummaryHtml(SummaryLines(sections, resumeLines)),
      SkillsOf(PickSection(sections, SkillNames)),
      Experience.ExperienceOf(PickSection(sections, ExperienceNames)),
      Education.EducationOf(PickSection(sections, EducationNames)))
  {
    var skills := ParseSkills(PickSection(sections, SkillNames));
    var exps := Experience.ParseExperience(PickSection(sections, ExperienceNames));
    var edus := Education.ParseEducation(PickSection(sections, EducationNames));
    var summary := ToHtmlParagraphs(SummaryLines(sections, resumeLines));
    about := AboutFields(summary, skills, exps, edus);
  }

  // ---------------------------------------------------------------------
  // Properties of a run

  /** A run writes nothing exactly when no PDF is found; it updates the
      document exactly when a PDF is found, the document is read and the
      merge does not throw; whenever the document was read the backup holds
      it, under the name the clock gives. */
  lemma RunOutcomes(resumeText: Option<string>, portfolioText: Option<string>, file: Option<Json>,
                    now: nat, year: nat)
    ensures RunSpec(resumeText, portfolioText, file, now, year).NoPdf? <==> resumeText.None? && portfolioText.None?
    ensures RunSpec(resumeText, portfolioText, file, now, year).Updated? <==>
      (resumeText.Some? || portfolioText.Some?) && file.Some? &&
      ContentOf(file.value, ExtractedOf(LinesOf(resumeText), LinesOf(portfolioText), year)).Ok?
    ensures RunSpec(resumeText, portfolioText, file, now, year) == Failed(None) <==>
      (resumeText.Some? || portfolioText.Some?) && file.None?
    ensures RunSpec(resumeText, portfolioText, file, now, year).Updated? ==>
      file.Some? && RunSpec(resumeText, portfolioText, file, now, year).backup == Backup(BackupName(now), file.value)
    ensures RunSpec(resumeText, portfolioText, file, now, year).Failed? &&
            RunSpec(resumeText, portfolioText, file, now, year).saved.Some? ==>
      file.Some? && RunSpec(resumeText, portfolioText, file, now, year).saved.value == Backup(BackupName(now), file.value)
  {
    if resumeText.Some? || portfolioText.Some? {
      MergeStepOutcomes(ExtractedOf(LinesOf(resumeText), LinesOf(portfolioText), year), file, now);
    }
  }

  lemma MergeStepOutcomes(x: Extracted, file: Option<Json>, now: nat)
    ensures MergeStep(x, file, now).Updated? <==> file.Some? && ContentOf(file.value, x).Ok?
    ensures MergeStep(x, file, now) == Failed(None) <==> file.None?
    ensures MergeStep(x, file, now).Updated? ==> file.Some? && MergeStep(x, file, now).backup == Backup(BackupName(now), file.value)
    ensures MergeStep(x, file, now).Failed? && MergeStep(x, file, now).saved.Some? ==>
      file.Some? && MergeStep(x, file, now).saved.value == Backup(BackupName(now), file.value)
    ensures !MergeStep(x, file, now).NoPdf?
  {
  }

  /** A run that finds a PDF is the merge step on its extraction. */
  lemma RunIsMergeStep(resumeText: Option<string>, portfolioText: Option<string>, file: Option<Json>,
                       now: nat, year: nat)
    requires resumeText.Some? || portfolioText.Some?
    ensures RunSpec(resumeText, portfolioText, file, now, year) ==
      MergeStep(ExtractedOf(LinesOf(resumeText), LinesOf(portfolioText), year), file, now)
  {
  }

  /** The `about` fields of an extraction: its title and its summary, under
      keys that occur once. */
  lemma ExtractedAbout(resumeLines: seq<string>, portfolioLines: seq<string>, year: nat)
    ensures var about := ExtractedOf(resumeLines, portfolioLines, year).about;
      DistinctKeys(about) && |about| == 7 &&
      about[0] == ("title", JStr(AboutTitle)) &&
      about[1] == ("summary", JStr(SummaryHtml(SummaryLines(SectionsOf(resumeLines), resumeLines))))
  {
    var sections := SectionsOf(resumeLines);
    var summary := SummaryHtml(SummaryLines(sections, resumeLines));
    var skills := SkillsOf(PickSection(sections, SkillNames));
    var exps := Experience.ExperienceOf(PickSection(sections, ExperienceNames));
    var edus := Education.EducationOf(PickSection(sections, EducationNames));
    assert ExtractedOf(resumeLines, portfolioLines, year).about == AboutFields(summary, skills, exps, edus);
    AboutFieldsShape(summary, skills, exps, edus);
  }

  /** An updated document has the resume path, the fixed `about` title and
      the summary of the picked lines; without a portfolio its
      `caseStudies` is left as it was. */
  lemma RunUpdates(resumeText: Option<string>, portfolioText: Option<string>, file: Option<Json>,
                   now: nat, year: nat)
    requires RunSpec(resumeText, portfolioText, file, now, year).Updated?
    ensures Get(Get(RunSpec(resumeText, portfolioText, file, now, year).content, "site"), "resume") ==
      JStr(ResumePath())
    ensures Get(Get(RunSpec(resumeText, portfolioText, file, now, year).content, "about"), "title") ==
      JStr(AboutTitle)
    ensures Get(Get(RunSpec(resumeText, portfolioText, file, now, year).content, "about"), "summary") ==
      JStr(SummaryHtml(SummaryLines(SectionsOf(LinesOf(resumeText)), LinesOf(resumeText))))
    ensures portfolioText.None? ==>
      Get(RunSpec(resumeText, portfolioText, file, now, year).content, "caseStudies") ==
        Lookup(SpreadFields(file.value), "caseStudies")
  {
    var x := ExtractedOf(LinesOf(resumeText), LinesOf(portfolioText), year);
    RunIsMergeStep(resumeText, portfolioText, file, now, year);
    ExtractedAbout(LinesOf(resumeText), LinesOf(portfolioText), year);
    if portfolioText.None? {
      NoPortfolioNoStubs(LinesOf(resumeText), year);
    }
    MergeStepUpdates(x, file, now);
  }

  /** Without portfolio lines there are no case-study stubs. */
  lemma NoPortfolioNoStubs(resumeLines: seq<string>, year: nat)
    ensures ExtractedOf(resumeLines, [], year).caseStudies == []
  {
    assert CaseStudies.Stubs([], year) == [];
  }

  /** What an update holds, for any extraction whose `about` has no key
      twice. */
  lemma MergeStepUpdates(x: Extracted, file: Option<Json>, now: nat)
    requires MergeStep(x, file, now).Updated? && DistinctKeys(x.about)
    ensures Get(Get(MergeStep(x, file, now).content, "site"), "resume") == JStr(ResumePath())
    ensures forall i :: 0 <= i < |x.about| ==> Get(Get(MergeStep(x, file, now).content, "about"), x.about[i].0) == x.about[i].1
    ensures |x.caseStudies| == 0 ==>
      Get(MergeStep(x, file, now).content, "caseStudies") == Lookup(SpreadFields(file.value), "caseStudies")
  {
    SiteRules(file.value, x);
    AboutRules(file.value, x);
    CaseStudiesRule(file.value, x);
  }

  /** Running again with the same PDFs and year on the document a run built,
      read back as that value, writes that document again (and backs it up
      first), provided the old location, when truthy, does not print as
      `''`. */
  lemma RunIdempotent(resumeText: Option<string>, portfolioText: Option<string>, file: Option<Json>,
                      now: nat, later: nat, year: nat)
    requires RunSpec(resumeText, portfolioText, file, now, year).Updated?
    requires LocationKeeps(Get(file.value, "site"))
    ensures RunSpec(resumeText, portfolioText, Some(RunSpec(resumeText, portfolioText, file, now, year).content), later, year) ==
      Updated(Backup(BackupName(later), RunSpec(resumeText, portfolioText, file, now, year).content),
              RunSpec(resumeText, portfolioText, file, now, year).content)
  {
    var x := ExtractedOf(LinesOf(resumeText), LinesOf(portfolioText), year);
    RunIsMergeStep(resumeText, portfolioText, file, now, year);
    var c := MergeStep(x, file, now).content;
    RunIsMergeStep(resumeText, portfolioText, Some(c), later, year);
    ExtractedFit(LinesOf(resumeText), LinesOf(portfolioText), year);
    StringSlugs(x.caseStudies);
    MergeStepIdempotent(x, file, now, later);
  }

  /** A string slug is a `Map` key compared by value. */
  lemma StringSlugs(cs: seq<Json>)
    requires forall j :: 0 <= j < |cs| ==> CaseStudies.SlugOf(cs[j]).JStr?
    ensures forall j :: 0 <= j < |cs| ==> !CaseStudies.IsRef(CaseStudies.SlugOf(cs[j]))
  {
  }

  /** The merge step run again on what it wrote writes the same. */
  lemma MergeStepIdempotent(x: Extracted, file: Option<Json>, now: nat, later: nat)
    requires MergeStep(x, file, now).Updated?
    requires DistinctKeys(x.about)
    requires forall j :: 0 <= j < |x.caseStudies| ==> !CaseStudies.IsRef(CaseStudies.SlugOf(x.caseStudies[j]))
    requires LocationKeeps(Get(file.value, "site"))
    ensures MergeStep(x, Some(MergeStep(x, file, now).content), later) ==
      Updated(Backup(BackupName(later), MergeStep(x, file, now).content), MergeStep(x, file, now).content)
  {
    var e := file.value;
    var c := ContentOf(e, x).value;
    ContentIdempotent(e, x);
    MergeStepFixpoint(x, c, later);
  }

  /** A document the merge gives back is written again, after its backup. */
  lemma MergeStepFixpoint(x: Extracted, c: Json, later: nat)
    requires ContentOf(c, x) == Ok(c)
    ensures MergeStep(x, Some(c), later) == Updated(Backup(BackupName(later), c), c)
  {
  }
}
