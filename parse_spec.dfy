/** What `LaTeXResumeParser.parse` computes, as functions of the text: the section
    nodes in document order and the sequence of writes into `id_to_position`, in
    the order the parser performs them. The parser class is proved to compute
    exactly these; the lemmas here state what they guarantee. */
module ParseSpec {
  import opened PyStr
  import opened Regex
  import opened ResumeTree

  const ListStart: string := "\\resumeItemListStart"
  const ListEnd: string := "\\resumeItemListEnd"
  const BeginDocument: string := "\\begin{document}"
  const EndDocument: string := "\\end{document}"

  datatype Kind = ExperienceKind | ProjectsKind | SkillsKind | EducationKind | GenericKind

  /** The section kind is chosen by exact name; anything else is generic. */
  function KindOf(name: string): Kind {
    if name in ["Work Experience", "Experience", "Professional Experience"] then ExperienceKind
    else if name in ["Projects", "Personal Projects"] then ProjectsKind
    else if name == "Skills" then SkillsKind
    else if name == "Education" then EducationKind
    else GenericKind
  }

  /** Capture group `k` of a match (empty when the pattern has fewer groups). */
  function G(m: Match, k: nat): string {
    if k < |m.groups| then m.groups[k] else ""
  }

  // ---------------------------------------------------------------------------
  // Bullets: `_parse_resume_items`
  // ---------------------------------------------------------------------------

  /** The node and the registration of one `\resumeItem` match of a list whose
      text begins at offset `off` of a section that begins at offset `base` of
      the document. */
  function BulletOf(digest: Digest, base: nat, off: nat, m: Match): (Bullet, Reg) {
    var text := Strip(G(m, 0));
    var id := GenerateId(digest, "bullet_" + PyPrefix(text, 30));
    (Bullet(id, text), (id, Span(base + off + m.start, base + off + m.end)))
  }

  /** The first `n` bullets of the match list `ms`. */
  function BulletsUpTo(digest: Digest, ms: seq<Match>, base: nat, off: nat, n: nat): (r: (seq<Bullet>, seq<Reg>))
    requires n <= |ms|
    ensures |r.0| == n && |r.1| == n
  {
    if n == 0 then ([], [])
    else
      var prev := BulletsUpTo(digest, ms, base, off, n - 1);
      var b := BulletOf(digest, base, off, ms[n - 1]);
      (prev.0 + [b.0], prev.1 + [b.1])
  }

  /** All bullets of the list text `content`, which starts at offset
      `base + off` of the document. */
  function Bullets(digest: Digest, content: string, base: nat, off: nat): (seq<Bullet>, seq<Reg>) {
    var ms := FindIter(ResumeItem, content, 0);
    BulletsUpTo(digest, ms, base, off, |ms|)
  }

  // ---------------------------------------------------------------------------
  // Entries with a bullet list: experience and projects
  // ---------------------------------------------------------------------------

  /** The bullets of the entry whose heading ends at `from` in the section text
      `content` (which starts at offset `base`): parsed only when a list start
      follows the heading at a positive index and the first list end after the
      heading comes after it. */
  function EntryBullets(digest: Digest, content: string, base: nat, from: nat): (seq<Bullet>, seq<Reg>) {
    var ls := Find(content, ListStart, from);
    var le := Find(content, ListEnd, from);
    if ls > 0 && le > ls then Bullets(digest, PySlice(content, ls, le), base, ls) else ([], [])
  }

  /** Where an entry's span ends, relative to the section text: at the first
      list end after the heading, or at the heading's end when there is none. */
  function EntryEnd(content: string, from: nat): nat {
    var le := Find(content, ListEnd, from);
    if le > 0 then le else from
  }

  /** The node of an experience entry whose heading match is `m`. */
  function JobNode(digest: Digest, m: Match, bullets: seq<Bullet>): Job {
    var title, company, dates, location := Strip(G(m, 0)), Strip(G(m, 1)), Strip(G(m, 2)), Strip(G(m, 3));
    Job(GenerateId(digest, company + "_" + title), title, company, dates, location, bullets)
  }

  /** An experience entry: its node, and its bullets' writes followed by its own. */
  function JobOf(digest: Digest, content: string, base: nat, m: Match): (Job, seq<Reg>) {
    var bl := EntryBullets(digest, content, base, m.end);
    var job := JobNode(digest, m, bl.0);
    (job, bl.1 + [(job.id, Span(base + m.start, base + EntryEnd(content, m.end)))])
  }

  function JobsUpTo(digest: Digest, content: string, base: nat, ms: seq<Match>, n: nat): (r: (seq<Job>, seq<Reg>))
    requires n <= |ms|
    ensures |r.0| == n
  {
    if n == 0 then ([], [])
    else
      var prev := JobsUpTo(digest, content, base, ms, n - 1);
      var j := JobOf(digest, content, base, ms[n - 1]);
      (prev.0 + [j.0], prev.1 + j.1)
  }

  /** The node of a project entry whose heading match is `m`. */
  function ProjectNode(digest: Digest, m: Match, bullets: seq<Bullet>): Project {
    var name, tech := Strip(G(m, 0)), Strip(G(m, 1));
    Project(GenerateId(digest, "project_" + name), name, tech, bullets)
  }

  /** A project entry: its node, and its bullets' writes followed by its own. */
  function ProjectOf(digest: Digest, content: string, base: nat, m: Match): (Project, seq<Reg>) {
    var bl := EntryBullets(digest, content, base, m.end);
    var project := ProjectNode(digest, m, bl.0);
    (project, bl.1 + [(project.id, Span(base + m.start, base + EntryEnd(content, m.end)))])
  }

  function ProjectsUpTo(digest: Digest, content: string, base: nat, ms: seq<Match>, n: nat): (r: (seq<Project>, seq<Reg>))
    requires n <= |ms|
    ensures |r.0| == n
  {
    if n == 0 then ([], [])
    else
      var prev := ProjectsUpTo(digest, content, base, ms, n - 1);
      var p := ProjectOf(digest, content, base, ms[n - 1]);
      (prev.0 + [p.0], prev.1 + p.1)
  }

  // ---------------------------------------------------------------------------
  // Skills and education: the span is exactly the match
  // ---------------------------------------------------------------------------

  function CategoryOf(digest: Digest, base: nat, m: Match): (Category, Reg) {
    var category, items := Strip(G(m, 0)), Strip(G(m, 1));
    var id := GenerateId(digest, "skill_" + category);
    (Category(id, category, items), (id, Span(base + m.start, base + m.end)))
  }

  function CategoriesUpTo(digest: Digest, base: nat, ms: seq<Match>, n: nat): (r: (seq<Category>, seq<Reg>))
    requires n <= |ms|
    ensures |r.0| == n && |r.1| == n
  {
    if n == 0 then ([], [])
    else
      var prev := CategoriesUpTo(digest, base, ms, n - 1);
      var c := CategoryOf(digest, base, ms[n - 1]);
      (prev.0 + [c.0], prev.1 + [c.1])
  }

  function SchoolOf(digest: Digest, base: nat, m: Match): (School, Reg) {
    var degree, school, dates, location := Strip(G(m, 0)), Strip(G(m, 1)), Strip(G(m, 2)), Strip(G(m, 3));
    var id := GenerateId(digest, "edu_" + school);
    (School(id, degree, school, dates, location), (id, Span(base + m.start, base + m.end)))
  }

  function SchoolsUpTo(digest: Digest, base: nat, ms: seq<Match>, n: nat): (r: (seq<School>, seq<Reg>))
    requires n <= |ms|
    ensures |r.0| == n && |r.1| == n
  {
    if n == 0 then ([], [])
    else
      var prev := SchoolsUpTo(digest, base, ms, n - 1);
      var s := SchoolOf(digest, base, ms[n - 1]);
      (prev.0 + [s.0], prev.1 + [s.1])
  }

  // ---------------------------------------------------------------------------
  // Sections
  // ---------------------------------------------------------------------------

  /** The node and registrations of the section named `name` whose text
      `content` starts at offset `base`. */
  function SectionOf(digest: Digest, name: string, content: string, base: nat): (r: (Section, seq<Reg>))
    ensures r.0.name == name && r.0.id == GenerateId(digest, "section_" + name)
    ensures KindOf(name) == GenericKind ==> r == (Generic(r.0.id, name, content), [])
  {
    var id := GenerateId(digest, "section_" + name);
    match KindOf(name)
    case ExperienceKind =>
      var ms := FindIter(Subheading, content, 0);
      var js := JobsUpTo(digest, content, base, ms, |ms|);
      (Experience(id, name, js.0), js.1)
    case ProjectsKind =>
      var ms := FindIter(ProjectHeading, content, 0);
      var ps := ProjectsUpTo(digest, content, base, ms, |ms|);
      (Projects(id, name, ps.0), ps.1)
    case SkillsKind =>
      var ms := FindIter(SkillLine, content, 0);
      var cs := CategoriesUpTo(digest, base, ms, |ms|);
      (Skills(id, name, cs.0), cs.1)
    case EducationKind =>
      var ms := FindIter(Subheading, content, 0);
      var ss := SchoolsUpTo(digest, base, ms, |ms|);
      (Education(id, name, ss.0), ss.1)
    case GenericKind => (Generic(id, name, content), [])
  }

  /** Where section `k` of the header list `hs` ends: at the next header, and
      for the last one at the first `\end{document}` when it is found at a
      positive index, else at the end of the text. */
  function SectionEnd(text: string, hs: seq<Match>, k: nat): nat
    requires k < |hs|
  {
    if k + 1 < |hs| then hs[k + 1].start
    else
      var e := Find(text, EndDocument, 0);
      if e > 0 then e else |text|
  }

  function SectionContent(text: string, hs: seq<Match>, k: nat): string
    requires k < |hs|
  {
    PySlice(text, hs[k].start, SectionEnd(text, hs, k))
  }

  function SectionsUpTo(digest: Digest, text: string, hs: seq<Match>, n: nat): (r: (seq<Section>, seq<Reg>))
    requires n <= |hs|
    ensures |r.0| == n
  {
    if n == 0 then ([], [])
    else
      var prev := SectionsUpTo(digest, text, hs, n - 1);
      var s := SectionOf(digest, G(hs[n - 1], 0), SectionContent(text, hs, n - 1), hs[n - 1].start);
      (prev.0 + [s.0], prev.1 + s.1)
  }

  function Headers(text: string): seq<Match> {
    FindIter(SectionHeader, text, 0)
  }

  /** All section nodes of `text` and the registrations made while parsing them. */
  function Sections(digest: Digest, text: string): (seq<Section>, seq<Reg>) {
    SectionsUpTo(digest, text, Headers(text), |Headers(text)|)
  }

  /** The `document_class` field after `_extract_preamble`: the first
      `\documentclass{…}` match, or the previous value when there is none. */
  function DocumentClassOf(text: string, previous: string): string {
    match Search(DocumentClass, text, 0)
    case Some(m) => text[m.start..m.end]
    case None => previous
  }

  /** The `preamble` field after `_extract_preamble`: the text before the first
      `\begin{document}` when that is at a positive index, else the previous value. */
  function PreambleOf(text: string, previous: string): string {
    var b := Find(text, BeginDocument, 0);
    if b > 0 then text[..b] else previous
  }

  /** The tree and id map a freshly constructed parser holds after `parse()`. */
  function Parse(digest: Digest, text: string): (Tree, map<string, Span>) {
    var secs := Sections(digest, text);
    (Tree(secs.0, PreambleOf(text, ""), DocumentClassOf(text, "")), Register(map[], secs.1))
  }
}
