# Resume and portfolio extractor: a Dafny model

This project models the build-time extractor of a personal portfolio site,
`scripts/extract-resume-to-json.cjs`. The extractor works in six stages:

1. It takes the text that a PDF reader gets out of the resume and the portfolio.
2. It normalises that text into trimmed, non-empty lines.
3. It cuts the resume's lines into titled sections.
4. It pulls out the contact details (email, phone and a location guess).
5. It parses the skills, experience, education and summary sections into
   records, and makes case-study stubs from the title-like lines of the portfolio.
6. It merges the result into the site's existing JSON content document. The
   old document is backed up first.

One module stands for each stage:

| module | models |
|---|---|
| `Normalizer` | the line chain of `readPdfText` |
| `Sections` | `isSectionHeader`, `splitSections`, `pickSection` |
| `Contacts` | `extractEmail`, `extractPhone`, the location guess |
| `Skills` | `parseSkills` |
| `Blocks` | the blank-line blocks and the dash split shared by the two parsers |
| `Experience` | `parseExperience` |
| `Education` | `parseEducation` |
| `Summary` | `toHtmlParagraphs` |
| `CaseStudies` | stub titles and slugs, and `mergeCaseStudies` |
| `Json` and `Content` | the JavaScript values the merge works on, and the top-level merge of `main` |
| `Pipeline` | `main`, end to end |

The supporting modules are:

- `Text`: JavaScript's `trim`, `\s`, `split`, `join`, `includes`, and the
  ASCII case folding of the `i` flag.
- `Lists`: `find`, `findIndex` and `filter`.
- `Wrappers`: `Option`, the model of `null`.

Each regular expression is written out as a character-level predicate or
scanner. Where the match text matters, the model follows the engine's choices:
the leftmost start, the greedy or lazy quantifier, and the order of the
alternatives. Where only `test` is used, the model states whether any match
exists.

Where the source code runs a loop over local state, the model has a `method`
with a loop. These are `splitSections`, the two loops of `parseSkills`, the
block and duration loops of `parseExperience`, the block loop of
`parseEducation`, the packing loop of `toHtmlParagraphs` and the three passes
of `mergeCaseStudies`. Each method is proved equal to a specification function.
The properties that the code and its design promise are proved as lemmas about
those functions.

In a few places the code does something easy to misread. The model follows the code:

- Header lines belong to no section. So the sections' lines together are the
  input without its header lines, not the whole input.
- A section title is the header line with one trailing `:` removed, then
  trimmed. Its case is kept.
- Skill groups come out in the order of the category table
  (`scripts/extract-resume-to-json.cjs:97-102`: Strategy, Content,
  Engineering, Tools), not in the order the items come in. Items of rows 2,
  3 and 0, given in that order, come out grouped as rows 0, 2 and 3
  (`Skills.TableOrderExample`). So "Python, Figma, Growth Strategy" gives
  Strategy, Engineering, Tools.
- Normalised lines never hold a line feed. So the `\n{2,}` split finds one
  block per section, and the experience section gives at most one entry
  (`Experience.OneEntryPerSection`).

## Model

| member | source | states |
|---|---|---|
| `Normalizer.RemoveCR` | scripts/extract-resume-to-json.cjs:38 | no carriage return is left, and no other character is added |
| `Normalizer.Normalize` | scripts/extract-resume-to-json.cjs:37-41 | every line is non-empty and trimmed, and holds no `\r` or `\n` |
| `Normalizer.NormalizeAppend` | scripts/extract-resume-to-json.cjs:37-41 | order is kept: the lines of `a + "\n" + b` are the lines of `a` followed by the lines of `b` |
| `Normalizer.NormalizeSingleLine` | scripts/extract-resume-to-json.cjs:37-41 | a text without a line feed gives its trimmed self, or nothing when it is blank |
| `Normalizer.NormalizeJoin` | scripts/extract-resume-to-json.cjs:37-41 | lines that are already normal, joined by line feeds, come back unchanged |
| `Text.Trim` | scripts/extract-resume-to-json.cjs:40 | the result has no whitespace at either end; a trimmed string is left as it is |
| `Text.TrimEmpty` | scripts/extract-resume-to-json.cjs:41 | trimming gives `''` exactly when the string is all whitespace |
| `Text.SplitJoin` | scripts/extract-resume-to-json.cjs:121-124 | `split(c)` undoes `join(c)` on pieces without `c` |
| `Contacts.MatchEmailIsLeftmostLongest` | scripts/extract-resume-to-json.cjs:46 | the email match is the leftmost one; at that start it has the last possible dot and the longest top-level part; there is none exactly when no match exists |
| `Contacts.EmailAtBest` | scripts/extract-resume-to-json.cjs:46 | every match at a start is found there, and the found one has the last dot and the longest ending |
| `Contacts.ExtractEmail` | scripts/extract-resume-to-json.cjs:44-50 | `null` exactly when no line has an email match; otherwise the text of the leftmost match in the first line that has one |
| `Contacts.ExtractEmailShape` | scripts/extract-resume-to-json.cjs:44-50 | the email found has a local part, an `@`, and ends in a dot and two letters |
| `Contacts.FitsIsForced` | scripts/extract-resume-to-json.cjs:54 | for a given number of country-code digits, each optional part of a phone match is taken exactly when its character is there |
| `Contacts.PhoneAtBest` | scripts/extract-resume-to-json.cjs:54 | at a start the match found has the most leading digits, and no other match at that start has as many |
| `Contacts.MatchPhoneIsLeftmostLongest` | scripts/extract-resume-to-json.cjs:54-56 | the phone match is the leftmost one, with the greediest country-code group; there is none exactly when no match exists |
| `Contacts.CollapseShape` | scripts/extract-resume-to-json.cjs:57 | after the replacement every whitespace character is a plain space and no two whitespace characters are adjacent |
| `Contacts.CollapseAllSpace` | scripts/extract-resume-to-json.cjs:57 | a text made only of whitespace becomes a single space |
| `Contacts.CollapseAppend` | scripts/extract-resume-to-json.cjs:57 | two pieces that do not meet inside a whitespace run collapse separately; so each maximal whitespace run becomes one space and every other character stays, in order |
| `Contacts.ExtractPhone` | scripts/extract-resume-to-json.cjs:52-60 | `null` exactly when no line has a phone match; otherwise the leftmost match text of the first line that has one, with its whitespace collapsed, then trimmed |
| `Contacts.LocationGuess` | scripts/extract-resume-to-json.cjs:245 | `''` exactly when no line names a place (ignoring case, inside words too); otherwise the first line that does |
| `Sections.KeepHeaderCharsIff` | scripts/extract-resume-to-json.cjs:65 | a character survives the filter exactly when it is a letter, `:` or a space |
| `Sections.HeaderCharacterisation` | scripts/extract-resume-to-json.cjs:62-68 | a line is a header exactly when it has a letter or `:` and no lower-case letter, or ends with `:` and whitespace |
| `Sections.HeaderLineIsSectionHeader` | scripts/extract-resume-to-json.cjs:74 | the one-pass test used by the split is `isSectionHeader(l) && l.length < 60` |
| `Sections.NoHeaderTitles` | scripts/extract-resume-to-json.cjs:74 | there are no header titles exactly when no line is a header |
| `Sections.SectionLineIsInput` | scripts/extract-resume-to-json.cjs:70-83 | every line of every section is a line of the input |
| `Sections.SplitSections` | scripts/extract-resume-to-json.cjs:70-83 | the sections' lines together are the non-header lines in order; no section is empty; each title is `INTRO` (first only) or a header's title; without headers the result is `[]` or one `INTRO` section |
| `Sections.SplitLoop` | scripts/extract-resume-to-json.cjs:71-80 | the loop ends in the state a left-to-right fold gives, with every header closing the open section |
| `Sections.FindSection` | scripts/extract-resume-to-json.cjs:86 | `findIndex`: the first index whose lower-cased title contains a keyword |
| `Sections.PickSection` | scripts/extract-resume-to-json.cjs:85-88 | `null` exactly when no title matches; otherwise the first matching section |
| `Skills.SkillItems` | scripts/extract-resume-to-json.cjs:92-94 | the items are non-empty and trimmed |
| `Skills.CategoryOf` | scripts/extract-resume-to-json.cjs:109 | the category is the first table row with a keyword in the lower-cased item, or "Other" |
| `Skills.BucketStep` | scripts/extract-resume-to-json.cjs:107-112 | one more item goes to its own bucket and to no other |
| `Skills.GroupItems` | scripts/extract-resume-to-json.cjs:104-116 | the two loops compute the table-ordered non-empty buckets |
| `Skills.ParseSkills` | scripts/extract-resume-to-json.cjs:90-117 | no section gives `[]`; otherwise the bucketed groups of the section's items |
| `Skills.GroupedOrder` | scripts/extract-resume-to-json.cjs:114-116 | no group is empty; groups follow table order with "Other" last |
| `Skills.GroupedPartition` | scripts/extract-resume-to-json.cjs:107-112 | every item is in exactly one group, its first matching category; each group keeps item order |
| `Skills.TableOrderExample` | scripts/extract-resume-to-json.cjs:97-116 | items of rows 2, 3 and 0 come out grouped as rows 0, 2 and 3 |
| `Blocks.SingleBlock` | scripts/extract-resume-to-json.cjs:121 | text without two line feeds in a row is one block |
| `Blocks.JoinNoDoubleBreak` | scripts/extract-resume-to-json.cjs:121 | non-empty lines joined by line feeds never put two line feeds together |
| `Blocks.SectionIsOneBlock` | scripts/extract-resume-to-json.cjs:121-124 | a section of normalised lines is one block holding exactly those lines |
| `Blocks.DashMatchFirstDash` | scripts/extract-resume-to-json.cjs:128 | the header splits at its first dash, and only when it has one |
| `Blocks.DashGapShape` | scripts/extract-resume-to-json.cjs:128 | between the parts lie one or two dashes (a second is always taken), then all following whitespace |
| `Experience.HeaderWithoutDash` | scripts/extract-resume-to-json.cjs:128-138 | with no dash, role and company are both the header when the swap applies, else role is the header and company is `''` |
| `Experience.HeaderAtFirstDash` | scripts/extract-resume-to-json.cjs:128-138 | with a dash, the trimmed parts swap when the left one looks like a company, or when the right one is empty and the left has at most 4 words |
| `Experience.EmptyIsNoRoleLine` | scripts/extract-resume-to-json.cjs:141-142 | an empty line is never a role line |
| `Experience.NextLinesFind` | scripts/extract-resume-to-json.cjs:142 | `slice(1, 4).find(P)` is the first of lines 2 to 4 satisfying `P`, else `''` |
| `Experience.RoleOverride` | scripts/extract-resume-to-json.cjs:140-145 | the first of lines 2 to 4 with a role keyword and no year or "Present" replaces the role; the company always comes from the header |
| `Experience.RangeRest` | scripts/extract-resume-to-json.cjs:148-149 | a range tail is spaces, a dash, spaces, then four digits or `Present` |
| `Experience.LeftmostIsLeast` | scripts/extract-resume-to-json.cjs:152-154 | `match` returns the text of the leftmost match, or none exactly when no position starts one |
| `Experience.FirstRangeIsFirst` | scripts/extract-resume-to-json.cjs:151-156 | the range picked is the one from the first line that has one, or `''` exactly when no line has one |
| `Experience.FindDuration` | scripts/extract-resume-to-json.cjs:150-156 | the duration loop with its `break` computes the first range, top to bottom |
| `Experience.DurationIsFirst` | scripts/extract-resume-to-json.cjs:148-156 | the duration is the range of the first line that has one (on each line the month form is tried before the year form); `''` exactly when no line has one |
| `Experience.StripBullet` | scripts/extract-resume-to-json.cjs:173 | the result is a suffix of the line; from a line starting with a bullet, the part removed is that bullet and whitespace only, and the result does not start with whitespace; any other line is unchanged |
| `Experience.KeptLinesAre` | scripts/extract-resume-to-json.cjs:161-163 | a later line is a responsibility exactly when it is not the header, does not hold the duration and is not the location line; the kept lines keep their order |
| `Experience.BuildEntry` | scripts/extract-resume-to-json.cjs:165-174 | no entry exactly when role, company and responsibilities are all empty; at most 12 responsibilities, in order, bullets stripped |
| `Experience.DroppedBlock` | scripts/extract-resume-to-json.cjs:125-165 | a block gives no entry exactly when it has under 2 lines, or its role and company are empty and every later line was filtered out |
| `Experience.ParseBlock` | scripts/extract-resume-to-json.cjs:124-174 | the loop body computes the block's entry |
| `Experience.ParseBlocks` | scripts/extract-resume-to-json.cjs:123-175 | the block loop computes the entries in block order |
| `Experience.ParseExperience` | scripts/extract-resume-to-json.cjs:119-177 | no section gives `[]`; otherwise the entries of its blocks |
| `Experience.OneEntryPerSection` | scripts/extract-resume-to-json.cjs:121 | a section of normalised lines gives at most one entry |
| `Education.ParseBlocks` | scripts/extract-resume-to-json.cjs:183-193 | the block loop computes the entries in block order |
| `Education.ParseEducation` | scripts/extract-resume-to-json.cjs:179-195 | no section gives `[]`; otherwise the entries of its blocks |
| `Education.OneEntryPerBlock` | scripts/extract-resume-to-json.cjs:183-193 | there are as many entries as blocks with a line, and the entry of such a block follows one entry for each earlier block with a line |
| `Education.SingleLineEntry` | scripts/extract-resume-to-json.cjs:185-192 | a single-line block still gives an entry, with an empty description |
| `Education.HeaderParts` | scripts/extract-resume-to-json.cjs:186-189 | degree and institution are the trimmed parts around the first dash, with no swap; with no dash, the header and `''` |
| `Education.DurationIsFirstSpan` | scripts/extract-resume-to-json.cjs:190 | the duration is the whole first line with a year span, or `''` exactly when none has one |
| `Education.DescriptionLines` | scripts/extract-resume-to-json.cjs:191 | the description joins, with spaces, the later lines that are not the duration line |
| `Education.OneEntryPerSection` | scripts/extract-resume-to-json.cjs:181-184 | a section of normalised lines gives one entry when it has a line, else none |
| `Summary.SentencesFrom` | scripts/extract-resume-to-json.cjs:200 | every sentence but the last is non-empty and ends in `.`, `!` or `?` |
| `Summary.NoBreakOneSentence` | scripts/extract-resume-to-json.cjs:200 | text without a sentence break is one sentence |
| `Summary.TrimmedSentences` | scripts/extract-resume-to-json.cjs:200 | the sentences of a trimmed text are non-empty and trimmed |
| `Summary.ToHtmlParagraphs` | scripts/extract-resume-to-json.cjs:197-213 | the packing loop, guarded against an empty first chunk, computes the summary HTML |
| `Summary.ChunksBounded` | scripts/extract-resume-to-json.cjs:203-210 | every pushed chunk, and the open one, is at most 220 characters or a single sentence |
| `Summary.ChunkBound` | scripts/extract-resume-to-json.cjs:203-211 | every chunk is at most 220 characters or a single trimmed sentence |
| `Summary.StepKeepsText` | scripts/extract-resume-to-json.cjs:204-209 | one turn of the loop loses and reorders no text |
| `Summary.PackKeepsText` | scripts/extract-resume-to-json.cjs:203-210 | the loop keeps the sentences, in order, split among the chunks |
| `Summary.ChunksKeepText` | scripts/extract-resume-to-json.cjs:203-211 | the chunks joined by spaces are the sentences joined by spaces, and no chunk is empty |
| `Summary.OnlyFirstEight` | scripts/extract-resume-to-json.cjs:199 | lines after the eighth do not matter |
| `Summary.EmptySummary` | scripts/extract-resume-to-json.cjs:197-213 | no lines give `''` |
| `Summary.NoEmptyParagraph` | scripts/extract-resume-to-json.cjs:199-211 | on normalised lines no paragraph is empty, and the paragraphs hold the sentences in order |
| `Summary.PackAsWritten` | scripts/extract-resume-to-json.cjs:203-210 | on non-empty sentences the loop as written builds the same chunks as the corrected one, with one empty chunk in front when the first sentence overflows |
| `Summary.AsWrittenSummary` | scripts/extract-resume-to-json.cjs:197-213 | on normalised lines, `toHtmlParagraphs` as written gives the corrected HTML, with `<p></p>` in front exactly when the first sentence has 220 characters or more |
| `Summary.AsWrittenEmptyParagraph` | scripts/extract-resume-to-json.cjs:204-206 | as written, a first sentence of 220 or more characters adds an empty `<p></p>` in front |
| `CaseStudies.Dedupe` | scripts/extract-resume-to-json.cjs:270 | `Array.from(new Set(xs))` holds every element once, and nothing else |
| `CaseStudies.DedupePrefix` | scripts/extract-resume-to-json.cjs:270 | elements come in the order of their first occurrence |
| `CaseStudies.DedupeDistinct` | scripts/extract-resume-to-json.cjs:270 | a list without duplicates is left as it is |
| `CaseStudies.Hyphenate` | scripts/extract-resume-to-json.cjs:271 | the result holds only `[a-z0-9]` and hyphens, never two hyphens in a row; it starts with a hyphen exactly when the input starts with another character |
| `CaseStudies.SlugifyIsSlug` | scripts/extract-resume-to-json.cjs:271 | a slug holds only `[a-z0-9-]`, with no leading, trailing or double hyphen |
| `CaseStudies.SlugFixedPoint` | scripts/extract-resume-to-json.cjs:271 | slugifying a slug returns it unchanged |
| `CaseStudies.SlugifyIdempotent` | scripts/extract-resume-to-json.cjs:271 | slugifying twice is slugifying once |
| `CaseStudies.MdxNameOfTitle` | scripts/extract-resume-to-json.cjs:283 | the MDX name is the slug, or the slug plus one trailing hyphen |
| `CaseStudies.StubsShape` | scripts/extract-resume-to-json.cjs:269-274 | at most 8 stubs, each from a title-like line under 70 characters; no title twice; every slug is a slug; the i-th cover is `/images/work/{i+1}.png` |
| `CaseStudies.StubsInOrder` | scripts/extract-resume-to-json.cjs:270 | the stubs follow the first occurrences of the title lines |
| `CaseStudies.AllTitlesWhenFew` | scripts/extract-resume-to-json.cjs:269-270 | with at most 8 distinct titles, every title gets a stub |
| `CaseStudies.StubJson` | scripts/extract-resume-to-json.cjs:270-284 | the stub object's `slug` is the derived slug |
| `CaseStudies.Values` | scripts/extract-resume-to-json.cjs:324 | `Array.from(map.values())` gives the values in key insertion order |
| `CaseStudies.FromPairs` | scripts/extract-resume-to-json.cjs:320 | `new Map(pairs)` has one key per distinct key, at its first place, holding the last value |
| `CaseStudies.SlugPairs` | scripts/extract-resume-to-json.cjs:320 | reading the slugs throws exactly on a null or undefined element |
| `CaseStudies.NewMap` | scripts/extract-resume-to-json.cjs:320 | the loop builds `new Map(pairs)` |
| `CaseStudies.AddIncoming` | scripts/extract-resume-to-json.cjs:321-323 | each incoming value whose slug is absent is added; it throws exactly on a null or undefined value |
| `CaseStudies.AddNewKeeps` | scripts/extract-resume-to-json.cjs:321-323 | adding keeps existing keys first, with their values unchanged, and every incoming key becomes present |
| `CaseStudies.AddNewOrder` | scripts/extract-resume-to-json.cjs:321-323 | the loop appends, in incoming order, the key of each incoming value that brings a new one, holding that first value; afterwards a key is present exactly when the map or some incoming value had it |
| `CaseStudies.AddNewValues` | scripts/extract-resume-to-json.cjs:321-324 | the values come out as the map's, then those of the incoming values that bring a new key, in incoming order |
| `CaseStudies.MergeCaseStudies` | scripts/extract-resume-to-json.cjs:319-325 | computes the merge, or the `TypeError` it throws |
| `CaseStudies.MergeKeepsExisting` | scripts/extract-resume-to-json.cjs:319-325 | the result is the existing list's map values (the last item per slug, at that slug's first place) followed by the new incoming values, the first one per new slug, in incoming order; each of those is an incoming value whose slug no existing item has; every incoming primitive slug ends up present |
| `CaseStudies.DistinctSlugsKept` | scripts/extract-resume-to-json.cjs:319-325 | with distinct existing slugs, the existing list is a prefix of the result |
| `CaseStudies.MergeIdempotent` | scripts/extract-resume-to-json.cjs:319-325 | merging the same incoming list into the result adds nothing |
| `Json.Set` | scripts/extract-resume-to-json.cjs:297-303 | writing a key keeps every other key's value and place; a new key goes last |
| `Json.SetAll` | scripts/extract-resume-to-json.cjs:304-307 | spreading pairs over an object keeps keys the pairs do not name |
| `Json.SetAllLookup` | scripts/extract-resume-to-json.cjs:304-307 | with distinct keys, each spread pair's value wins |
| `Json.ToStr` | scripts/extract-resume-to-json.cjs:300 | `toString` of a string is that string |
| `Content.ContentOf` | scripts/extract-resume-to-json.cjs:295-311 | a null or undefined document throws; a result is an object |
| `Content.ContentSucceeds` | scripts/extract-resume-to-json.cjs:295-311 | an object document with a primitive location and readable case studies merges without throwing |
| `Content.OtherKeysKept` | scripts/extract-resume-to-json.cjs:295-296 | every old key keeps its place; every key other than `site`, `about` and `caseStudies` keeps its value |
| `Content.LocationRule` | scripts/extract-resume-to-json.cjs:300 | a non-empty string location is kept; a falsy one gives way to the guess |
| `Content.SiteRules` | scripts/extract-resume-to-json.cjs:297-303 | `resume` is `/Tony_Destin_Resume.pdf`; email and phone come from the extraction only when found; a non-empty location is kept |
| `Content.SiteKeepsOthers` | scripts/extract-resume-to-json.cjs:298 | the other keys of the old `site` keep their values |
| `Content.AboutRules` | scripts/extract-resume-to-json.cjs:304-307 | the new `about` holds every extracted field; the other old keys keep their values |
| `Content.CaseStudiesRule` | scripts/extract-resume-to-json.cjs:308-310 | without stubs `caseStudies` is untouched; with stubs it is the merged list |
| `Content.TopKeys` | scripts/extract-resume-to-json.cjs:295-311 | the merged document adds no key except `site`, `about` and `caseStudies` |
| `Content.ContentIdempotent` | scripts/extract-resume-to-json.cjs:295-311 | merging the same extraction into the merged document gives it back |
| `Pipeline.AboutFieldsShape` | scripts/extract-resume-to-json.cjs:253-264 | `about` has seven distinct keys in the source's order, with the fixed title and the summary HTML |
| `Pipeline.SummaryWithoutHeaders` | scripts/extract-resume-to-json.cjs:250-251 | a resume without headers is summarised whole |
| `Pipeline.ExtractedFit` | scripts/extract-resume-to-json.cjs:253-284 | no `about` key appears twice, and every stub slug is a string |
| `Pipeline.ParseAbout` | scripts/extract-resume-to-json.cjs:247-264 | the parsers' loops on the picked sections compute the `about` fields, the summary with the corrected packing loop |
| `Pipeline.Extract` | scripts/extract-resume-to-json.cjs:241-284 | the contact extractors, the parsers and the stubs compute the extraction, the summary with the corrected packing loop |
| `Pipeline.Run` | scripts/extract-resume-to-json.cjs:215-317 | `main`, with the parsers' loops and the corrected packing loop, computes the outcome of the run: nothing written, a failure, or a backup and an updated document |
| `Pipeline.RunOutcomes` | scripts/extract-resume-to-json.cjs:215-313 | nothing is written exactly when no PDF is found; an update needs a read document and a merge that does not throw; the backup holds the document under the clock's name |
| `Pipeline.RunUpdates` | scripts/extract-resume-to-json.cjs:253-313 | an update has the resume path, the fixed title and the summary of the corrected packing loop; without a portfolio `caseStudies` is untouched |
| `Pipeline.SummaryAsWritten` | scripts/extract-resume-to-json.cjs:247-255 | the summary `main` as written computes is the corrected one, with `<p></p>` in front exactly when the first sentence has 220 characters or more |
| `Pipeline.RunIdempotent` | scripts/extract-resume-to-json.cjs:215-313 | a second run with the same PDFs, reading the merged document as it was built, gives that document back |

## Findings

| source | as written | input that shows it | evidently intended | confidence | as-written member | corrected member |
|---|---|---|---|---|---|---|
| scripts/extract-resume-to-json.cjs:204-206 | the overflow test `(cur + ' ' + s).length > 220` also fires while `cur` is still `''`, and pushes `''.trim()` as a chunk | a summary whose first sentence is 220 or more characters with no sentence break, e.g. one line of 220 `a`s | never push an empty chunk: test `cur && …`, as the else branch already does | medium, not executed | `Summary.AsWrittenEmptyParagraph` | `Summary.ToHtmlParagraphs` (`Summary.NoEmptyParagraph`) |

The rest of the model uses the corrected loop. The as-written output is
`Summary.SummaryHtmlAsWritten`. `Summary.AsWrittenSummary` and
`Pipeline.SummaryAsWritten` state exactly how the two differ.

## Left out

- Reading files, the PDF reader, `JSON.parse`/`JSON.stringify` and `console`
  are not modelled. A PDF is the text it yields, or nothing when it is not
  found. The content file is the parsed document, or nothing when it cannot be
  read. Writing the backup and the document is the `Outcome` of a run. Output
  formatting and process exit codes are left out.
- The clock is a parameter. `Date.now()` is `now`, used in the backup name.
  `getFullYear()` is `year`, used in the stubs.
- JavaScript strings are UTF-16, and `.length` counts code units. Dafny strings
  count characters. The bounds 60, 70 and 220 therefore differ from the source
  for characters outside the Basic Multilingual Plane.
- `toLowerCase` and `toUpperCase` are modelled on ASCII letters only. This is
  exact for the `i`-flag regular expressions (without `u`) and for the header
  test, whose filter keeps only ASCII letters. For the title match of
  `pickSection`, the skills keywords and the slug, a non-ASCII letter whose
  lower-case form is ASCII is not folded.
- JSON numbers are integers. Fractions, exponents and their `toString` are not
  modelled.
- `JSON.parse` with duplicate keys is not modelled. The special
  `__proto__` key in object spread is not modelled either.
- A `Map` key that is an object or an array (a slug of that kind) is compared
  by identity. The model tells such keys apart by position. Two such slugs are
  never equal, which matches fresh objects from `JSON.parse`.
- `Pipeline.RunIdempotent` and `Content.ContentIdempotent`: these need the old
  `site.location`, when truthy, not to print as `''`. An array like `[null]`
  prints as `''`, and a second run then takes the location guess instead.
- `Pipeline.RunIdempotent`: the second run reads the merged document as the
  value the first run built, not the text `JSON.stringify` writes. When no
  email or phone was found and the old `site` had none, that value holds
  `email` or `phone` as `undefined`. `JSON.stringify` drops such keys, so the
  file a real second run reads lacks them, and its merge adds them after the
  other `site` keys. The model does not state what that second run writes.
- `Summary.ToHtmlParagraphs` models the corrected loop; see Findings.
- `Pipeline.Run`: computes `about.summary` with the corrected packing loop.
  When the first summary sentence has 220 characters or more, `main` as
  written writes the same document with `<p></p>` at the start of
  `about.summary` (`Pipeline.SummaryAsWritten`); `Run` does not state that
  document.
- `Pipeline.Extract`: its `about.summary` comes from the corrected packing
  loop; as written it has `<p></p>` in front for a first sentence of 220
  characters or more (`Pipeline.SummaryAsWritten`).
- `Pipeline.ParseAbout`: the same, for the `summary` field it computes.
- `Pipeline.RunUpdates`: its summary clause names the corrected loop's
  HTML; `Pipeline.SummaryAsWritten` gives the as-written one.
- The rest of the repository is not part of this model: the React pages and
  components under `src/`, the content loader, `scripts/validate-content.ts`
  (a schema check) and `scripts/optimize-images.ts` (an image pipeline).
