# LaTeX résumé optimizer — a Dafny model of its parser and edit engines

The system reads a LaTeX résumé and asks a language model for targeted
edits. This project models the deterministic core around those calls:

- **`LaTeXResumeParser`** (latex_parser.py). It cuts the text into
  `\section{…}` ranges and dispatches on the section name. It builds a tree
  of jobs, projects, bullets, skill categories and schools. It records a
  `(start, end)` span for each node in `id_to_position`, renders the
  outline shown to the model, and splices one edit into the text with
  `apply_edit_by_id`.
- **The id-based batch** of app_v2_parser.py: `apply_changes_by_id` and
  `add_bullet_to_element`.
- **The line-number engine** of app.py: `apply_changes_by_line`.
- **The string helpers around the model calls**:
  - both `escape_latex` tables;
  - fence stripping and cutting a reply to its `[`…`]`;
  - the second JSON attempt with doubled backslashes;
  - the record filter and the `element_id` unbracketing;
  - trimming a LaTeX text to `\documentclass`;
  - validating the job description and the reply defaults of `analyze_job`.

Modules:

- `PyStr` holds the Python `str` semantics the code relies on: `find`,
  `rfind`, clamped slicing, `strip`, `replace`, `split` and `join`.
- `Regex` writes each regular expression the parser uses as an explicit
  scanner. `Search` is `re.search` (the leftmost match). `FindIter` is
  `re.finditer` (leftmost, non-overlapping matches, left to right).
- `ResumeTree` holds the tree's node types, the ids and the span map, which
  is built by a sequence of registrations where a later one overwrites an
  earlier one.
- `ParseSpec` states, as functions, what the parser computes.
- `ParseProps` proves span bounds and the framing facts the parser's loops
  need.
- `ParseSelect` states what each recorded span selects in the text: a bullet
  span is a whole `\resumeItem{…}` match, and an entry span begins with its
  heading.
- `LatexParser` is the parser itself: a class whose methods update `tree`
  and `idToPosition` in place and are proved equal to `ParseSpec`.
- `Outline` is the rendering, `IdEdit` is `apply_edit_by_id` and
  `add_bullet_to_element`, and `IdBatch` is `apply_changes_by_id` on the
  parser object.
- `Sample` works through the parse of the sample résumé in `test_parser`
  (latex_parser.py:354-375), from its single matches up to the whole tree
  and id map.
- `LineEdit`, `Escape`, `Cleanup` and `JobCheck` model the rest.

An experience or project entry with no bullet list of its own gets a span
that reaches the next `\resumeItemListEnd` further down the section, if
there is one. This is because `find` starts at the heading and is not
bounded by the next heading (latex_parser.py:102-111). The span ends at the
heading only when no list end follows at all.

## Model

| member | source | states |
|---|---|---|
| PyStr.FindSpec | latex_parser.py:102-103 | `str.find`: the result is -1 when the pattern occurs nowhere from `from` on, and otherwise the first occurrence at or after `from` |
| PyStr.FindAtOrBelow | app.py:478 | the last occurrence at or below a bound, with none between it and the bound |
| PyStr.RFind | app.py:478 | `str.rfind`: -1 or an occurrence with no occurrence after it |
| PyStr.ContainsSpec | latex_parser.py:336 | the substring test `in` holds exactly when the pattern occurs somewhere |
| PyStr.PySlice | latex_parser.py:333 | Python's clamped slice: the plain slice when the bounds are in range, and otherwise a length of max(0, min(b, len) - a) |
| PyStr.PyPrefix | latex_parser.py:329 | `s[:n]` is a prefix of `s` whose length is min(n, len) |
| PyStr.PySuffix | latex_parser.py:329 | `s[n:]` is what `s[:n]` leaves: its length is len - min(n, len) and `s[:n] + s[n:] == s` |
| PyStr.SliceDecompose | latex_parser.py:349 | `s[:a] + s[a:b] + s[b:] == s` for any a <= b, even past the end of `s` |
| PyStr.LStripSpec | latex_parser.py:93 | `lstrip` drops exactly the longest leading run of the given characters |
| PyStr.RStripSpec | latex_parser.py:93 | `rstrip` drops exactly the longest trailing run of the given characters |
| PyStr.StripCharsShape | app_v2_parser.py:306 | `strip(cs)` is the middle slice whose ends are not in `cs`, and everything cut off is in `cs` |
| PyStr.StripCharsIdempotent | app_v2_parser.py:306 | stripping twice is stripping once |
| PyStr.StripCharsDropsLeading | app_v2_parser.py:128 | leading characters from the strip set do not change the stripped text |
| PyStr.ReplaceAbsent | app.py:135 | `replace` of a pattern that does not occur returns the text unchanged |
| PyStr.ReplaceCharConcat | app.py:135 | replacing a single character distributes over concatenation |
| PyStr.JoinSplit | app.py:532 | `'\n'.join(s.split('\n')) == s` |
| PyStr.SplitPiecesFree | app.py:532 | no piece of `split(sep)` contains `sep` |
| Regex.SkipSpace | latex_parser.py:89 | `\s*` consumes the longest run of whitespace and stops at a non-space or at the end |
| Regex.BraceArgs | latex_parser.py:89 | n groups `\{([^}]+)\}`: each group is non-empty without `}`, and the match ends just after a `}` |
| Regex.NextBrace | latex_parser.py:256 | the next `{` or `}` at or after j, with no brace before it |
| Regex.ItemArgEnd | latex_parser.py:256 | the argument of `\resumeItem{…}` (one nesting level) ends at a `}` at or after j |
| Regex.DocumentClassAt | latex_parser.py:33 | a match of `\\documentclass\{[^}]+\}` at i starts at i and ends inside the text |
| Regex.SectionAt | latex_parser.py:45 | a match of `\\section\{([^}]+)\}` at i starts at i and ends inside the text |
| Regex.SubheadingAt | latex_parser.py:89 | a match of the four-argument subheading pattern at i starts at i and ends inside the text |
| Regex.ProjectHeadingAt | latex_parser.py:138 | a match of the project heading pattern at i starts at i, ends inside the text just after a `}`, begins with `\resumeProjectHeading` and has two groups |
| Regex.ProjectHeadingArgs | latex_parser.py:138 | the part of that pattern after the command name and the white space: a match ends just after a `}` and has two groups (name and technologies) |
| Regex.SkillLineAt | latex_parser.py:182 | a match of `\\textbf\{([^}]+)\}\{:\s*([^}]+)\}` at i starts at i, ends inside the text just after a `}`, begins with `\textbf{` and has two groups |
| Regex.SkillItemsEnd | latex_parser.py:182 | the `}` that closes the items part `\{:\s*([^}]+)\}` lies at least one character past the colon |
| Regex.BoldLabelAt | latex_parser.py:340 | a match of `\\textbf\{([^}]+)\}` at i starts at i and ends inside the text |
| Regex.ResumeItemAt | latex_parser.py:256 | a match of the `\resumeItem{…}` pattern at i starts at i and ends inside the text |
| Regex.DocumentClassAtShape | latex_parser.py:33 | a match begins with `\documentclass{` and ends with `}` |
| Regex.SectionAtShape | latex_parser.py:45 | a match begins with `\section{`, has one group (the name) and ends with `}` |
| Regex.SubheadingAtShape | latex_parser.py:89 | a match begins with `\resumeSubheading`, has four groups and ends with `}` |
| Regex.SkillLineAtShape | latex_parser.py:182 | a match begins with `\textbf`, has two groups and ends with `}` |
| Regex.BoldLabelAtShape | latex_parser.py:340 | a match begins with `\textbf`, has one group and ends with `}` |
| Regex.ResumeItemAtShape | latex_parser.py:256 | a match begins with `\resumeItem`, has one group and ends with `}` |
| Regex.MatchAtShape | latex_parser.py:45 | every pattern's match has the shape above |
| Regex.NextBraceIn | latex_parser.py:256 | the next brace found in a slice of a text is the next brace of the text, shifted by the slice's start |
| Regex.ItemArgEndIn | latex_parser.py:256 | the end of a `\resumeItem` argument found in a slice of a text is its end in the text, shifted |
| Regex.ResumeItemAtIn | latex_parser.py:256-257 | a `\resumeItem{…}` match of a slice is a match of the whole text at the shifted position, with the same end (shifted) and the same group |
| Regex.Search | latex_parser.py:33 | `re.search` from `from`: a match lies inside `[from, len)` |
| Regex.SearchLeftmost | latex_parser.py:33 | `re.search` returns the match at the leftmost matching position and None only when no position matches |
| Regex.FindIterSound | latex_parser.py:46 | every `finditer` match is a real match of the pattern at its start |
| Regex.FindIterOrdered | latex_parser.py:46 | `finditer` matches lie in the text, in document order, without overlap |
| Regex.FindIterFirst | latex_parser.py:46 | nothing matches before the first match, and nothing matches at all when `finditer` yields nothing |
| Regex.FindIterBetween | latex_parser.py:46 | nothing matches between two consecutive matches |
| Regex.FindIterLast | latex_parser.py:46 | nothing matches after the last match |
| Regex.FindIterStep | latex_parser.py:46 | `finditer` is the first `search` match followed by `finditer` resumed at its end |
| ResumeTree.GenerateId | latex_parser.py:274-278 | an id is the first 12 characters of the hash of its key, so equal keys give equal ids |
| ResumeTree.RegisterLookup | latex_parser.py:113 | after a run of `id_to_position[id] = span` writes an id is present iff it was there or written, and it holds its last written span |
| ResumeTree.RegisterAppend | latex_parser.py:113 | two runs of writes are one run of their concatenation |
| ResumeTree.RegisterSpansIn | latex_parser.py:113 | writes of spans within bounds keep a map whose spans are all within bounds |
| ParseSpec.BulletsUpTo | latex_parser.py:259-270 | one bullet and one registration per `\resumeItem` match |
| ParseSpec.JobsUpTo | latex_parser.py:92-122 | one job per subheading match |
| ParseSpec.ProjectsUpTo | latex_parser.py:140-166 | one project per heading match |
| ParseSpec.CategoriesUpTo | latex_parser.py:185-199 | one category and one registration per skill-line match |
| ParseSpec.SchoolsUpTo | latex_parser.py:218-236 | one school and one registration per subheading match |
| ParseSpec.SectionOf | latex_parser.py:63-73 | a section keeps its name and its id is the hash of `section_<name>`; a name outside the lookup table gives a generic section that holds the raw content and registers nothing |
| ParseSpec.SectionsUpTo | latex_parser.py:48-75 | one section per `\section` header, in document order |
| ParseProps.BulletsIn | latex_parser.py:262-265 | every bullet span lies inside the scanned list text, shifted by its offset |
| ParseProps.EntryIn | latex_parser.py:102-111 | an entry ends at or after its heading's start and inside the section; its bullet spans lie inside the section |
| ParseProps.JobIn | latex_parser.py:98-113 | every span a job registers lies inside its section |
| ParseProps.ProjectIn | latex_parser.py:144-159 | every span a project registers lies inside its section |
| ParseProps.SectionIn | latex_parser.py:60-73 | every span a section registers lies inside the section's range |
| ParseProps.ParseSpansInBounds | latex_parser.py:98-113 | every span recorded by a parse satisfies 0 <= start <= end <= len(text) |
| ParseProps.BulletsShift | latex_parser.py:108 | parsing bullets at base + offset is parsing them at base with the offset added in |
| PyStr.PySliceAt | latex_parser.py:107 | a slice that starts inside the text occurs in the text at its start |
| ParseSelect.ItemSpanHoldsItem | latex_parser.py:333-336 | the text under a bullet span begins with `\resumeItem{`, so `modify` rewrites it as a bullet |
| ParseSelect.ItemSpanRewrites | latex_parser.py:333-336 | `modify` on a bullet span writes a new bullet that the bullet pattern reads back at the span's start with exactly the new text |
| ParseSelect.ItemSpanIn | latex_parser.py:262-265 | a bullet match of a piece of the text is a bullet span of the text, shifted by the piece's position |
| ParseSelect.BulletsSelect | latex_parser.py:251-265 | every bullet span `_parse_resume_items` records is one whole `\resumeItem{…}` match of the text |
| ParseSelect.EntryBulletsSelect | latex_parser.py:102-108 | the bullet spans of an entry's list are whole bullet matches of the text |
| ParseSelect.MatchSpanIn | latex_parser.py:98-111 | a match of a section text gives a span of the text that begins with the same literal and ends just after a `}` |
| ParseSelect.EntrySpanIn | latex_parser.py:98-111 | an entry span begins with its heading and ends just after it or where a `\resumeItemListEnd` begins |
| ParseSelect.EntryRegs | latex_parser.py:102-113 | an entry's writes, its bullets then itself, are bullet spans or entry spans headed by its heading |
| ParseSelect.JobSelect | latex_parser.py:98-113 | every span a job writes is a bullet match or an entry span from its `\resumeSubheading` |
| ParseSelect.JobRegs | latex_parser.py:102-113 | a job writes its bullets' spans, then its own span from the heading to `EntryEnd` |
| ParseSelect.ProjectSelect | latex_parser.py:144-159 | every span a project writes is a bullet match or an entry span from its `\resumeProjectHeading` |
| ParseSelect.ProjectRegs | latex_parser.py:148-159 | a project writes its bullets' spans, then its own span from the heading to `EntryEnd` |
| ParseSelect.JobsUpToSelect | latex_parser.py:92-113 | every span written by the first n jobs of a section is a bullet or an entry span |
| ParseSelect.ProjectsUpToSelect | latex_parser.py:141-159 | every span written by the first n projects of a section is a bullet or an entry span |
| ParseSelect.CategoriesUpToSelect | latex_parser.py:185-193 | every skill-line span is exactly a match, beginning with `\textbf{` and ending with `}` |
| ParseSelect.SchoolsUpToSelect | latex_parser.py:218-228 | every education span is exactly a match, beginning with `\resumeSubheading` and ending with `}` |
| ParseSelect.ExperienceSelect | latex_parser.py:77-124 | every span an experience section writes is a whole bullet match, an entry span from its heading, or a skill line |
| ParseSelect.ProjectsSelect | latex_parser.py:126-168 | likewise for every span a projects section writes |
| ParseSelect.SkillsSelect | latex_parser.py:170-201 | likewise for every span a skills section writes |
| ParseSelect.EducationSelect | latex_parser.py:203-238 | likewise for every span an education section writes |
| ParseSelect.SectionSelect | latex_parser.py:63-73 | likewise for every span any section writes, whatever its kind |
| ParseSelect.SectionsUpToSelect | latex_parser.py:49-73 | likewise for every span the first n sections write |
| ParseSelect.RegisterSelects | latex_parser.py:113 | writing spans that select something into a map whose spans do keeps every span of the map selecting something |
| ParseSelect.ParseSpansSelect | latex_parser.py:24-29 | every span `parse()` records, in the order written and in the final `id_to_position`, is a whole `\resumeItem{…}` match, an entry span from its heading, or a skill line |
| LatexParser.LaTeXResumeParser.constructor | latex_parser.py:14-22 | a new parser holds the text, an empty tree and an empty id map |
| LatexParser.LaTeXResumeParser.Parse | latex_parser.py:24-29 | `parse()` appends the sections, sets preamble and document class, and makes exactly the specified id writes in order; it returns the tree |
| LatexParser.LaTeXResumeParser.ExtractPreamble | latex_parser.py:31-40 | the document class is the first `\documentclass{…}` match if any, and the preamble is the text before `\begin{document}` when that index is positive; otherwise both keep their old values |
| LatexParser.LaTeXResumeParser.ExtractSections | latex_parser.py:42-75 | the tree gains the specified sections, and the id map receives the specified writes in document order |
| LatexParser.LaTeXResumeParser.ExtractSection | latex_parser.py:49-73 | section i is parsed from its header to the next header, or for the last one to `\end{document}` (when at a positive index) or the end of the text |
| LatexParser.LaTeXResumeParser.ParseSection | latex_parser.py:63-73 | dispatch on the exact section name, as `SectionOf` states |
| LatexParser.LaTeXResumeParser.ParseExperienceSection | latex_parser.py:77-124 | one job per subheading match, in order, with its writes |
| LatexParser.LaTeXResumeParser.ParseJob | latex_parser.py:92-122 | fields are the stripped groups; the span runs from the heading to the first list end after it, or to the heading's end |
| LatexParser.LaTeXResumeParser.ParseEntryBullets | latex_parser.py:102-108 | bullets are parsed only when a list start at a positive index precedes the list end; returns that list end |
| LatexParser.LaTeXResumeParser.ParseProjectsSection | latex_parser.py:126-168 | one project per heading match, in order, with its writes |
| LatexParser.LaTeXResumeParser.ParseProject | latex_parser.py:140-166 | as for a job, with the project's name and technologies |
| LatexParser.LaTeXResumeParser.ParseSkillsSection | latex_parser.py:170-201 | one category per skill line, with its span exactly the match |
| LatexParser.LaTeXResumeParser.ParseEducationSection | latex_parser.py:203-238 | one school per subheading, with its span exactly the match |
| LatexParser.LaTeXResumeParser.ParseGenericSection | latex_parser.py:240-249 | a generic section holds its name, its raw content and its id |
| LatexParser.LaTeXResumeParser.ParseResumeItems | latex_parser.py:251-272 | one bullet per `\resumeItem` match with the stripped argument, its id from the first 30 characters, and a write of its shifted span |
| LatexParser.LaTeXResumeParser.GetDisplayableTree | latex_parser.py:280-307 | the returned text is the outline of the current tree |
| LatexParser.LaTeXResumeParser.ApplyEditById | latex_parser.py:309-351 | fails exactly for an unknown id; another action than `remove`/`modify` returns the text unchanged; the text field is not changed |
| LatexParser.ParseNew | latex_parser.py:374-375 | constructing a parser and parsing gives exactly the specified tree and id map |
| Sample.DocumentClassMatch | latex_parser.py:33 | `\documentclass{w}` with a non-empty `w` without `}` matches over the whole command |
| Sample.SectionMatch | latex_parser.py:45 | `\section{w}` matches with the single group `w`, up to its closing brace |
| Sample.SubheadingMatch | latex_parser.py:89 | a `\resumeSubheading` line with four non-empty arguments without `}` matches with exactly those four groups, up to its last brace |
| Sample.ItemMatch | latex_parser.py:256 | `\resumeItem{w}` with no brace in `w` matches with the group `w` |
| Sample.SkillMatch | latex_parser.py:182 | `\textbf{name}{: items}` matches with the groups `name` and `items`; the space after the colon goes to `\s*` |
| Sample.SampleHeaders | latex_parser.py:44-46 | the sample has exactly two `\section` headers, "Work Experience" at 43 and "Skills" at 258 |
| Sample.JobMatches | latex_parser.py:89-90 | the experience section of the sample has exactly one subheading, whose groups are the title, company, dates and location |
| Sample.BulletMatches | latex_parser.py:256-257 | the sample's bullet list has exactly two `\resumeItem` matches, with the two bullet texts |
| Sample.SkillsMatches | latex_parser.py:182-183 | the sample's skills section has exactly two skill lines, with their labels and item lists |
| Sample.SampleJob | latex_parser.py:92-122 | the sample's job has its four fields and both bullets; the bullets are written before the job, the job's span runs from its heading to `\resumeItemListEnd` |
| Sample.SampleExperience | latex_parser.py:77-124 | the sample's experience section holds that one job and makes its three writes |
| Sample.SampleSkills | latex_parser.py:170-201 | the sample's skills section holds the categories "Programming" and "Cloud" with their items, each spanning its own line |
| Sample.SampleSections | latex_parser.py:42-75 | the sample's sections are the experience section (up to the skills header) and the skills section (up to `\end{document}`), in order |
| Sample.SampleHead | latex_parser.py:31-40 | the sample's preamble is the text before `\begin{document}` and its document class is `\documentclass{article}` |
| Sample.SampleParse | latex_parser.py:354-375 | parsing the sample résumé gives `SampleTree` and `SampleIds`: one experience section with the job and its two bullets, then a skills section with two categories; the id map holds five entries written bullet, bullet, job, category, category, each with the span of its entry |
| Outline.PreviewShape | latex_parser.py:300 | a preview is the text when it has at most 80 characters, and otherwise its first 80 characters followed by "..." |
| Outline.OutlineLineCount | latex_parser.py:280-307 | the outline has the header line and then one line per section, entry, bullet, category and school |
| Outline.SectionsLinesCount | latex_parser.py:285-305 | the sections contribute one line per node they show |
| Outline.SectionLinesCount | latex_parser.py:286-305 | one section contributes its own line and one per child; a generic section contributes only its own line |
| Outline.JobsLinesCount | latex_parser.py:293-301 | jobs contribute one line each plus one per bullet |
| Outline.ProjectsLinesCount | latex_parser.py:293-301 | projects contribute one line each plus one per bullet |
| Outline.BulletLinesCount | latex_parser.py:299-301 | one line per bullet |
| Outline.CategoryLinesCount | latex_parser.py:289-290 | one line per category |
| Outline.SchoolLinesCount | latex_parser.py:304-305 | one line per school |
| IdEdit.Splice | latex_parser.py:349 | the spliced text's length is the old length minus the clamped span's plus the new element's |
| IdEdit.SpliceUndo | latex_parser.py:349 | a splice keeps the text before the span and after it, and splicing the old element back in restores the input |
| IdEdit.ApplyEdit | latex_parser.py:309-351 | an unknown id is an error naming the id; any action other than `remove`/`modify` returns the text unchanged |
| IdEdit.RemoveRestores | latex_parser.py:327-329 | `remove` gives text[:s] + text[e:]; putting the cut text back restores the input |
| IdEdit.ModifyFrame | latex_parser.py:331-349 | `modify` keeps the prefix before the span and the suffix after it, with the rewrapped element in between |
| IdEdit.ModifiedBulletReparses | latex_parser.py:336-337 | a modified bullet, with brace-free new text, is read back by the bullet pattern at the same place with exactly the new text |
| IdEdit.BoldLabelOfWrapped | latex_parser.py:340-343 | the label search on a rewritten skill line finds the label the rewrite put there |
| IdEdit.LabelWithoutItemOpen | latex_parser.py:340-342 | a bold label found in text without `\resumeItem{` is non-empty, has no `}` and holds no bullet opener |
| IdEdit.NoItemOpenInWrapped | latex_parser.py:343 | a rewrapped skill line holds no bullet opener when its parts hold none |
| IdEdit.RewrapTwice | latex_parser.py:336-347 | rewrapping twice is rewrapping once with the second text when the first opens no bullet or bold label; the bullet test comes first |
| IdEdit.ModifyTwice | latex_parser.py:331-349 | modifying twice (the second time at the span the first edit produced) is modifying once with the second text |
| IdEdit.AddBullet | app_v2_parser.py:373-391 | an unknown parent is an error, a parent span without `\resumeItemListEnd` is an error naming the parent, and otherwise the call succeeds |
| IdEdit.AddBulletPoint | app_v2_parser.py:378-388 | the insertion point is the first list end inside the span, lying wholly in the text and the span |
| IdEdit.AddBulletInserts | app_v2_parser.py:386-391 | the new bullet is inserted right before the first list end of the span, both sides are kept, and cutting it out restores the input |
| IdEdit.InsertBefore | app_v2_parser.py:390 | an insertion at an occurrence keeps both sides and moves the occurrence behind the inserted text |
| IdEdit.EntryTextLacksListEnd | latex_parser.py:103-111 | a freshly parsed entry whose heading holds no list end has no list end inside its span |
| IdEdit.NoListEndInHeading | latex_parser.py:89 | no list end starts inside a heading that holds none |
| IdEdit.NoListEndAcrossBrace | latex_parser.py:89 | no list end straddles a heading's closing brace |
| IdEdit.AddBulletToFreshEntryFails | app_v2_parser.py:379-384 | adding a bullet to an entry, using the span its parse recorded, always takes the "No bullet list" error path |
| IdBatch.Step | app_v2_parser.py:335-363 | one record: an unknown id, an unknown action or an `add_to` whose parent span holds no list end leaves the text unchanged; `add_to` gives the text of `AddBullet`, `modify` and `remove` that of `ApplyEdit`, each with the escaped suggested text, when the edit succeeds, and the unchanged text when it raises |
| IdBatch.FirstMalformed | app_v2_parser.py:335-336 | the index of the first record lacking `element_id` or `action`: every record before it is well formed |
| IdBatch.BatchById | app_v2_parser.py:326-371 | the batch succeeds exactly when no record lacks a key, and an empty batch returns the text |
| IdBatch.ApplyChangesById | app_v2_parser.py:326-371 | the loop returns the batch result; `parser.latex_content` holds the records applied in list order, using the spans of the one parse, up to the first malformed record |
| IdBatch.SpanPartsLocal | app_v2_parser.py:379 | slices of a span inside `p` do not see what follows `p` |
| IdBatch.AddBulletLocal | app_v2_parser.py:378-391 | text after the parent's span does not affect `add_bullet_to_element`, and is carried through unchanged |
| IdBatch.EditLocal | latex_parser.py:324-351 | text after the element's span does not affect the edit, and is carried through unchanged |
| IdBatch.StepLocal | app_v2_parser.py:334-359 | a record whose span ends within `p` changes only `p` |
| IdBatch.StepKeepsPrefix | app_v2_parser.py:334-359 | a record never changes the text in front of its span |
| IdBatch.BackToFront | app_v2_parser.py:358-359 | two records whose spans come back to front are applied as if each saw its own original span |
| IdBatch.StaleSpans | app_v2_parser.py:358-359 | the spans are not recomputed: two removals give different texts in the two orders |
| LineEdit.Lift | app.py:532 | the line list before any edit holds every line |
| LineEdit.Insert | app.py:537 | insertion into the sorted list adds one element |
| LineEdit.SortDesc | app.py:537 | sorting keeps the length |
| LineEdit.InsertMultiset | app.py:537 | insertion adds exactly the new element |
| LineEdit.InsertSorted | app.py:537 | insertion keeps the list in descending line order |
| LineEdit.SortDescSpec | app.py:537 | the sorted suggestions are in descending line order and are a permutation of the input |
| LineEdit.Effect | app.py:539-574 | one suggestion keeps the number of lines |
| LineEdit.EffectSpec | app.py:540-574 | out-of-range targets, empty stripped `modify` texts and other actions change nothing; `modify` sets the target to the stripped text; `remove` marks it; no other line changes |
| LineEdit.EffectsCommute | app.py:535-537 | suggestions on different lines commute |
| LineEdit.ApplyAll | app.py:539 | applying all suggestions keeps the number of lines |
| LineEdit.ApplyAllAppend | app.py:539 | applying two lists in turn is applying their concatenation |
| LineEdit.MoveBehind | app.py:539 | a suggestion can be moved behind suggestions on other lines |
| LineEdit.ApplyInsert | app.py:537-539 | applying after insertion into a sorted list is applying the new suggestion last |
| LineEdit.SortIrrelevant | app.py:535-539 | applying the suggestions sorted descending gives the same lines as applying them in the given order, since a stable sort keeps the order of suggestions on one line |
| LineEdit.Compact | app.py:577 | compaction never lengthens the list |
| LineEdit.CompactLift | app.py:577 | compacting an unmarked list gives back its lines |
| LineEdit.CompactConcat | app.py:577 | compaction distributes over concatenation, so surviving lines keep their order |
| LineEdit.CompactCount | app.py:577 | compaction drops exactly the marked lines |
| LineEdit.NoSuggestions | app.py:532-579 | with no suggestions the output equals the input |
| LineEdit.RemovalsMark | app.py:565-567 | after removals the marked lines are exactly the distinct in-range targets |
| LineEdit.RemovalCount | app.py:565-579 | the output has the original line count minus the number of distinct removed lines |
| LineEdit.ApplyChangesByLine | app.py:526-586 | the array loop and compaction compute the result of applying the sorted suggestions, compacting, and joining |
| Escape.ReplaceEach | app.py:133-135 | the loop applies the table's replacements one after another |
| Escape.EscapeLatexApp | app.py:114-137 | app.py's escape: an empty text is returned as is, and otherwise its table is applied |
| Escape.EscapeLatexV2 | app_v2_parser.py:43-59 | app_v2_parser.py's escape applies its table, backslash last |
| Escape.AppRulesCover | app.py:120-131 | app.py's table replaces only the ten special characters |
| Escape.V2RulesCover | app_v2_parser.py:45-56 | app_v2_parser.py's table replaces only the ten special characters |
| Escape.ApplyRulesConcat | app.py:134-135 | a run of single-character replacements distributes over concatenation |
| Escape.ApplyRulesPlain | app.py:134-135 | a text without any table character is unchanged |
| Escape.ApplyRulesAppend | app.py:134-135 | applying two tables in turn is applying their concatenation |
| Escape.AppEscapeEmpty | app.py:116-117 | the empty text escapes to itself in both variants |
| Escape.EscapePlain | app.py:114-137 | a text with none of the ten characters is unchanged by both escapes |
| Escape.EscapeConcat | app.py:114-137 | both escapes distribute over concatenation |
| Escape.AppEscapePercent | app.py:122 | app.py escapes `%` to `\%` |
| Escape.AppEscapeBackslash | app.py:121-128 | app.py turns `\` into `\textbackslash\{\}`: the braces it adds are escaped by the later entries |
| Escape.V2EscapePercent | app_v2_parser.py:46-55 | app_v2_parser.py turns `%` into `\textbackslash{}%`: the backslash added first is rewritten by the last entry |
| Escape.V2EscapeBackslash | app_v2_parser.py:55 | app_v2_parser.py turns `\` into `\textbackslash{}` |
| Escape.EscapesDiffer | app_v2_parser.py:43-59 | the two tables give different results on `%` and on `\` |
| Cleanup.DropLeading | app.py:465-466 | `re.sub(r'^lit\n?', '', s)`: the result is a suffix of `s`; a leading `lit` is removed, and the newline right after it when there is one; a text not starting with `lit` is unchanged |
| Cleanup.TrailingFence | app.py:467 | the match of `\n?```$` lies in the text |
| Cleanup.DropTrailingFence | app.py:467 | removing the trailing fence never lengthens the text |
| Cleanup.TrailingFenceLeftmost | app.py:467 | the match removed is the leftmost match of `\n?```$`, and none is removed when the pattern matches nowhere |
| Cleanup.CleanFencesWrapped | app.py:465-468 | a body wrapped in a json fence comes back stripped |
| Cleanup.CutFront | app.py:471-475 | cutting to the first `[` never lengthens the text |
| Cleanup.CutBack | app.py:477-481 | cutting after the last `]` never lengthens the text |
| Cleanup.CutToBrackets | app.py:470-481 | both cuts together never lengthen the text |
| Cleanup.CutFrontShape | app.py:471-475 | when a `[` exists, the text is cut to start at the first one |
| Cleanup.CutBackShape | app.py:477-481 | when a `]` exists past index 0, the text is cut to end at the last one |
| Cleanup.CutToBracketsShape | app.py:470-481 | with a `[` before a `]`, the result runs from the first `[` to the last `]` inclusive |
| Cleanup.DoubleBackslashesUndo | app.py:491 | doubling backslashes loses nothing: turning pairs back into single ones restores the text |
| Cleanup.ParseLenient | app.py:484-499 | the lenient parse fails exactly when both attempts fail; its value is always the value of one of the two attempts, and a text that parses as it is gets that value unaltered |
| Cleanup.MarkPending | app.py:514-516 | a record gains `status = 'pending'` and `modified_text` = its `suggested_text` (or ""), and keeps every other field |
| Cleanup.FilterModify | app.py:508-516 | the filter never lengthens the list |
| Cleanup.FilterModifyFails | app.py:508 | the filter fails exactly when some record is not an object |
| Cleanup.FilterModifyKeeps | app.py:508-516 | every kept record is a marked `modify` record of the input, and every `modify` record of the input is kept |
| Cleanup.FilterModifyConcat | app.py:508 | the filter distributes over concatenation, so the order is kept |
| Cleanup.AppSuggestions | app.py:465-519 | there is a result exactly when the cleaned text parses, as is or with doubled backslashes, to a list of objects; the result is then `FilterModify` of that list and holds only `modify` records marked pending |
| Cleanup.UnbracketIds | app_v2_parser.py:303-306 | the in-place loop succeeds exactly when every record can be cleaned, and then holds the cleaned records |
| Cleanup.CleanIdStrips | app_v2_parser.py:306 | a cleaned id neither starts nor ends with a bracket, and cleaning again changes nothing |
| Cleanup.CleanIdsIdempotent | app_v2_parser.py:303-306 | cleaning the list twice is cleaning it once |
| Cleanup.StripBracketPair | app_v2_parser.py:305-306 | `[abc]` becomes `abc` |
| Cleanup.V2Suggestions | app_v2_parser.py:271-309 | there is a result exactly when the stripped, cleaned text parses to a list whose every record passes the id clean-up; the result is then `CleanIds` of that list, one record per item, and cleaning it again changes nothing |
| Cleanup.TrimToDocumentClass | app.py:1003-1006 | the trimmed text is a suffix of the input |
| Cleanup.TrimSpec | app.py:1003-1006 | when `\documentclass` occurs, the result starts with it and the part dropped holds none; otherwise the text is unchanged |
| Cleanup.TrimIdempotent | app.py:1003-1006 | trimming twice is trimming once |
| Cleanup.LazyTrimAgrees | app_v2_parser.py:74 | the lazy `^.*?\\documentclass` substitution trims exactly like the search-and-slice of app.py |
| Cleanup.DropFenced | app_v2_parser.py:75-76 | removing fences never lengthens the text |
| Cleanup.DropFencedKeepsPrefix | app_v2_parser.py:75-76 | fence removal leaves a prefix without a backtick alone |
| Cleanup.ReplaceKeepsPrefix | app.py:208 | fence replacement leaves a prefix without a backtick alone |
| Cleanup.CompileCleanAppHead | app.py:202-208 | text holding `\documentclass` still starts with it after app.py's clean-up |
| Cleanup.CompileCleanV2Head | app_v2_parser.py:74-76 | text holding `\documentclass` still starts with it after app_v2_parser.py's clean-up |
| JobCheck.ValidateJob | app_v2_parser.py:116-130 | a job description is accepted exactly when there is an API key, it holds neither `\documentclass` nor `\begin{document}`, and its stripped length is at least 50 |
| JobCheck.ResumeRejectedFirst | app_v2_parser.py:121-125 | a text holding either LaTeX marker is reported as a résumé, whatever its length |
| JobCheck.LeadingBlanksIgnored | app_v2_parser.py:128 | leading whitespace does not change the verdict |
| JobCheck.Default | app_v2_parser.py:187-188 | a missing key gets `[]`, and every present key keeps its value |
| JobCheck.WithDefaultsSpec | app_v2_parser.py:187-194 | after the defaults all four lists are present, present keys keep their values, and missing ones hold `[]` |
| JobCheck.WithDefaultsIdempotent | app_v2_parser.py:187-194 | filling in defaults twice is filling them in once |
| JobCheck.AnalyzeReply | app_v2_parser.py:160-194 | a reply is accepted exactly when it cleans to text that starts with `{` or `[` and parses to an object; the analysis is then `WithDefaults` of that object, holds the four lists and keeps every key of the object with its value |

## Left out

- The Streamlit interface, session state, logging, the API-key handling, and the language-model calls. The model starts from the text a call returned.
- PDF compilation: the subprocess, the temporary files and the PATH probing. Only the text clean-up before compiling is modelled.
- `hashlib.md5`: ids are taken from an arbitrary `Digest` function, so only "equal keys give equal ids" is used.
- `json.loads`: a `Loads` parameter that either gives a value or fails. Floating-point numbers are not represented.
- The old text-matching engine after the `return` of `apply_changes_by_line` (app.py:587-724): it cannot run.
- The printing of the sample parse in `test_parser`.
- The `metadata` entry of the tree is never written, so it is not modelled.
- IdBatch.ApplyChangesById: a record whose `element_id` or `action` key is missing raises `KeyError`, which the outer handler turns into `None`. The model returns None there too, but does not model a key holding a non-string value.
- LineEdit.LineSuggestion: a record missing `line_number` or `action` is not modelled. Either key raises a `KeyError` (app.py:537, app.py:541), and the outer handler turns it into `None`. A non-string `modified_text` is not modelled either. Every record carries both keys, line numbers are integers and texts are strings.
- LineEdit.SortDesc: an insertion sort. Stability (keeping the input order of suggestions on one line) is not stated directly. Instead, SortIrrelevant shows that the sorted order gives the same lines as the input order.
- Cleanup.TrailingFenceLeftmost and JobCheck.WithDefaultsSpec are proved by the verifier without a written proof.
- Cleanup.CleanId: the Python `in` test on a number, a boolean or null raises `TypeError`, and the model treats that as the failure path. A dictionary whose `element_id` is not a string is left unchanged.
- Unicode: strings are sequences of characters, with no normalisation. `\s` and `strip()` use the characters Python counts as whitespace.
