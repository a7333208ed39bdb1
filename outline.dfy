/** The outline `LaTeXResumeParser.get_displayable_tree` renders for the
    language model: a header line, then one line per section and one per
    entry, bullet, skill category or school below it, each naming the node's
    id in brackets. */
module Outline {
  import opened PyStr
  import opened ResumeTree

  const Header: string := "=== RESUME STRUCTURE ===\n"
  /** The folder emoji in front of a section line. */
  const Folder: string := "\U{1F4C1}"
  /** The indentation and box-drawing corner in front of an item line. */
  const Branch: string := "  \U{2514}\U{2500} "
  /** The indentation and bullet sign in front of a bullet line. */
  const Dot: string := "      \U{2022} "

  /** How long a bullet's text may be before the preview cuts it. */
  const PreviewLength: nat := 80

  function Tag(id: string): string {
    "[" + id + "] "
  }

  /** A bullet's text as shown: cut to 80 characters plus "..." when longer. */
  function Preview(text: string): string {
    if |text| > PreviewLength then text[..PreviewLength] + "..." else text
  }

  /** A preview is never longer than 83 characters, keeps the text when it
      fits, and otherwise keeps its first 80 characters and marks the cut. */
  lemma PreviewShape(text: string)
    ensures |Preview(text)| <= PreviewLength + 3
    ensures |text| <= PreviewLength ==> Preview(text) == text
    ensures |text| > PreviewLength ==>
              Preview(text)[..PreviewLength] == text[..PreviewLength] && EndsWith(Preview(text), "...")
  {
    if |text| > PreviewLength {
      var p := Preview(text);
      assert |p| == PreviewLength + 3;
      assert p[|p| - 3..] == "...";
    }
  }

  function SectionLine(s: Section): string {
    "\n" + Folder + " " + Tag(s.id) + s.name + " (" + TypeName(s) + ")"
  }

  function BulletLine(b: Bullet): string {
    Dot + Tag(b.id) + Preview(b.text)
  }

  function CategoryLine(c: Category): string {
    Branch + Tag(c.id) + c.category + ": " + c.items
  }

  function SchoolLine(e: School): string {
    Branch + Tag(e.id) + e.degree + " - " + e.school
  }

  function JobHeadLine(j: Job): string {
    Branch + Tag(j.id) + j.title + " at " + j.company
  }

  function ProjectHeadLine(p: Project): string {
    Branch + Tag(p.id) + p.name
  }

  // Each list below is built from the end, the way the rendering loop
  // appends to it.

  function BulletLines(bs: seq<Bullet>): seq<string>
    decreases |bs|
  {
    if bs == [] then [] else BulletLines(bs[..|bs| - 1]) + [BulletLine(bs[|bs| - 1])]
  }

  function CategoryLines(cs: seq<Category>): seq<string>
    decreases |cs|
  {
    if cs == [] then [] else CategoryLines(cs[..|cs| - 1]) + [CategoryLine(cs[|cs| - 1])]
  }

  function SchoolLines(es: seq<School>): seq<string>
    decreases |es|
  {
    if es == [] then [] else SchoolLines(es[..|es| - 1]) + [SchoolLine(es[|es| - 1])]
  }

  function JobLines(j: Job): seq<string> {
    [JobHeadLine(j)] + BulletLines(j.bullets)
  }

  function JobsLines(js: seq<Job>): seq<string>
    decreases |js|
  {
    if js == [] then [] else JobsLines(js[..|js| - 1]) + JobLines(js[|js| - 1])
  }

  function ProjectLines(p: Project): seq<string> {
    [ProjectHeadLine(p)] + BulletLines(p.bullets)
  }

  function ProjectsLines(ps: seq<Project>): seq<string>
    decreases |ps|
  {
    if ps == [] then [] else ProjectsLines(ps[..|ps| - 1]) + ProjectLines(ps[|ps| - 1])
  }

  /** The lines one section contributes: its own line, then its children's;
      a generic section contributes only its own line. */
  function SectionLines(s: Section): seq<string> {
    [SectionLine(s)] +
    match s
    case Skills(_, _, cs) => CategoryLines(cs)
    case Experience(_, _, js) => JobsLines(js)
    case Projects(_, _, ps) => ProjectsLines(ps)
    case Education(_, _, es) => SchoolLines(es)
    case Generic(_, _, _) => []
  }

  function SectionsLines(ss: seq<Section>): seq<string>
    decreases |ss|
  {
    if ss == [] then [] else SectionsLines(ss[..|ss| - 1]) + SectionLines(ss[|ss| - 1])
  }

  /** All lines of the outline of `tree`, header first. */
  function OutlineLines(tree: Tree): seq<string> {
    [Header] + SectionsLines(tree.sections)
  }

  /** `get_displayable_tree()`: the lines joined with newlines. */
  function RenderOutline(tree: Tree): string {
    Join("\n", OutlineLines(tree))
  }

  /** Appending the lines of one more section. */
  lemma SectionsLinesSnoc(ss: seq<Section>, i: nat)
    requires i < |ss|
    ensures SectionsLines(ss[..i + 1]) == SectionsLines(ss[..i]) + SectionLines(ss[i])
  {
    assert ss[..i + 1][..i] == ss[..i];
  }

  lemma BulletLinesSnoc(bs: seq<Bullet>, i: nat)
    requires i < |bs|
    ensures BulletLines(bs[..i + 1]) == BulletLines(bs[..i]) + [BulletLine(bs[i])]
  {
    assert bs[..i + 1][..i] == bs[..i];
  }

  lemma CategoryLinesSnoc(cs: seq<Category>, i: nat)
    requires i < |cs|
    ensures CategoryLines(cs[..i + 1]) == CategoryLines(cs[..i]) + [CategoryLine(cs[i])]
  {
    assert cs[..i + 1][..i] == cs[..i];
  }

  lemma SchoolLinesSnoc(es: seq<School>, i: nat)
    requires i < |es|
    ensures SchoolLines(es[..i + 1]) == SchoolLines(es[..i]) + [SchoolLine(es[i])]
  {
    assert es[..i + 1][..i] == es[..i];
  }

  lemma JobsLinesSnoc(js: seq<Job>, i: nat)
    requires i < |js|
    ensures JobsLines(js[..i + 1]) == JobsLines(js[..i]) + JobLines(js[i])
  {
    assert js[..i + 1][..i] == js[..i];
  }

  lemma ProjectsLinesSnoc(ps: seq<Project>, i: nat)
    requires i < |ps|
    ensures ProjectsLines(ps[..i + 1]) == ProjectsLines(ps[..i]) + ProjectLines(ps[i])
  {
    assert ps[..i + 1][..i] == ps[..i];
  }

  // ---------------------------------------------------------------------------
  // One line per node
  // ---------------------------------------------------------------------------

  /** The number of nodes below a section that the outline shows: entries
      with their bullets, categories and schools; the raw text of a generic
      section is not shown. */
  function ChildCount(s: Section): nat {
    match s
    case Skills(_, _, cs) => |cs|
    case Experience(_, _, js) => |js| + SumBullets(seq(|js|, i requires 0 <= i < |js| => |js[i].bullets|))
    case Projects(_, _, ps) => |ps| + SumBullets(seq(|ps|, i requires 0 <= i < |ps| => |ps[i].bullets|))
    case Education(_, _, es) => |es|
    case Generic(_, _, _) => 0
  }

  function SumBullets(ns: seq<nat>): nat
    decreases |ns|
  {
    if ns == [] then 0 else SumBullets(ns[..|ns| - 1]) + ns[|ns| - 1]
  }

  /** The number of nodes the outline shows: every section and its children. */
  function NodeCount(ss: seq<Section>): nat
    decreases |ss|
  {
    if ss == [] then 0 else NodeCount(ss[..|ss| - 1]) + 1 + ChildCount(ss[|ss| - 1])
  }

  lemma {:induction false} BulletLinesCount(bs: seq<Bullet>)
    ensures |BulletLines(bs)| == |bs|
    decreases |bs|
  {
    if bs != [] {
      BulletLinesCount(bs[..|bs| - 1]);
    }
  }

  lemma {:induction false} JobsLinesCount(js: seq<Job>)
    ensures |JobsLines(js)| == |js| + SumBullets(seq(|js|, i requires 0 <= i < |js| => |js[i].bullets|))
    decreases |js|
  {
    if js != [] {
      var n := |js| - 1;
      JobsLinesCount(js[..n]);
      BulletLinesCount(js[n].bullets);
      var ns := seq(|js|, i requires 0 <= i < |js| => |js[i].bullets|);
      assert ns[..n] == seq(n, i requires 0 <= i < n => |js[..n][i].bullets|);
    }
  }

  lemma {:induction false} ProjectsLinesCount(ps: seq<Project>)
    ensures |ProjectsLines(ps)| == |ps| + SumBullets(seq(|ps|, i requires 0 <= i < |ps| => |ps[i].bullets|))
    decreases |ps|
  {
    if ps != [] {
      var n := |ps| - 1;
      ProjectsLinesCount(ps[..n]);
      BulletLinesCount(ps[n].bullets);
      var ns := seq(|ps|, i requires 0 <= i < |ps| => |ps[i].bullets|);
      assert ns[..n] == seq(n, i requires 0 <= i < n => |ps[..n][i].bullets|);
    }
  }

  lemma {:induction false} CategoryLinesCount(cs: seq<Category>)
    ensures |CategoryLines(cs)| == |cs|
    decreases |cs|
  {
    if cs != [] {
      CategoryLinesCount(cs[..|cs| - 1]);
    }
  }

  lemma {:induction false} SchoolLinesCount(es: seq<School>)
    ensures |SchoolLines(es)| == |es|
    decreases |es|
  {
    if es != [] {
      SchoolLinesCount(es[..|es| - 1]);
    }
  }

  lemma SectionLinesCount(s: Section)
    ensures |SectionLines(s)| == 1 + ChildCount(s)
  {
    match s
    case Skills(_, _, cs) => CategoryLinesCount(cs);
    case Experience(_, _, js) => JobsLinesCount(js);
    case Projects(_, _, ps) => ProjectsLinesCount(ps);
    case Education(_, _, es) => SchoolLinesCount(es);
    case Generic(_, _, _) =>
  }

  /** The outline has the header line and exactly one line per node shown:
      per section, entry, bullet, category and school. */
  lemma OutlineLineCount(tree: Tree)
    ensures |OutlineLines(tree)| == 1 + NodeCount(tree.sections)
    ensures OutlineLines(tree)[0] == Header
  {
    SectionsLinesCount(tree.sections);
  }

  lemma {:induction false} SectionsLinesCount(ss: seq<Section>)
    ensures |SectionsLines(ss)| == NodeCount(ss)
    decreases |ss|
  {
    if ss != [] {
      SectionsLinesCount(ss[..|ss| - 1]);
      SectionLinesCount(ss[|ss| - 1]);
    }
  }
}
