/** The parser object: it holds the résumé text, the tree it builds and the map
    from ids to spans, and fills the last two in place while it scans. Every
    method is proved to compute what the functions of `ParseSpec` describe:
    the nodes it returns, and the writes it makes into `idToPosition`, in the
    order it makes them. */
module LatexParser {
  import opened PyStr
  import opened Regex
  import opened ResumeTree
  import opened ParseSpec
  import opened ParseProps
  import opened Outline
  import opened IdEdit
  import opened Wrappers

  class LaTeXResumeParser {
    /** The hash behind `_generate_id`. */
    const digest: Digest
    var latexContent: string
    var tree: Tree
    var idToPosition: map<string, Span>

    constructor (digest: Digest, latexContent: string)
      ensures this.digest == digest && this.latexContent == latexContent
      ensures tree == EmptyTree && idToPosition == map[]
    {
      this.digest := digest;
      this.latexContent := latexContent;
      tree := EmptyTree;
      idToPosition := map[];
    }

    /** `parse`: the preamble fields, then the sections appended after any the
        tree already holds. */
    method Parse() returns (t: Tree)
      modifies this`tree, this`idToPosition
      ensures tree == Tree(old(tree.sections) + Sections(digest, latexContent).0,
                           PreambleOf(latexContent, old(tree.preamble)),
                           DocumentClassOf(latexContent, old(tree.documentClass)))
      ensures idToPosition == Register(old(idToPosition), Sections(digest, latexContent).1)
      ensures t == tree
    {
      ExtractPreamble();
      ExtractSections();
      t := tree;
    }

    /** `_extract_preamble`: each field is set only when its marker is found. */
    method ExtractPreamble()
      modifies this`tree
      ensures tree == old(tree).(documentClass := DocumentClassOf(latexContent, old(tree.documentClass)),
                                 preamble := PreambleOf(latexContent, old(tree.preamble)))
    {
      var m := Search(DocumentClass, latexContent, 0);
      if m.Some? {
        tree := tree.(documentClass := latexContent[m.value.start..m.value.end]);
      }
      var b := Find(latexContent, BeginDocument, 0);
      if b > 0 {
        tree := tree.(preamble := latexContent[..b]);
      }
    }

    /** `_extract_sections`: one section per header, in document order, each
        running from its header to the next one (the last one to the end of
        the body, or of the text). */
    method ExtractSections()
      modifies this`tree, this`idToPosition
      ensures tree == old(tree).(sections := old(tree.sections) + Sections(digest, latexContent).0)
      ensures idToPosition == Register(old(idToPosition), Sections(digest, latexContent).1)
    {
      var hs := FindIter(SectionHeader, latexContent, 0);
      var parsed: seq<Section> := [];
      ghost var regs: seq<Reg> := [];
      var i := 0;
      while i < |hs|
        invariant i <= |hs|
        invariant (parsed, regs) == SectionsUpTo(digest, latexContent, hs, i)
        invariant tree == old(tree).(sections := old(tree.sections) + parsed)
        invariant idToPosition == Register(old(idToPosition), regs)
      {
        var s; ghost var sregs;
        s, sregs := ExtractSection(hs, i);
        RegisterAppend(old(idToPosition), regs, sregs);
        SectionsUpToStep(digest, latexContent, hs, i, parsed, regs, s, sregs);
        AppendAssoc(old(tree.sections), parsed, [s]);
        tree := tree.(sections := tree.sections + [s]);
        parsed := parsed + [s];
        regs := regs + sregs;
        i := i + 1;
      }
    }

    /** The body of the loop of `_extract_sections`: the `i`-th section runs
        from its header to the next header, or, for the last one, to the
        first `\end{document}` when that is at a positive index and to the end
        of the text otherwise. */
    method ExtractSection(hs: seq<Match>, i: nat) returns (s: Section, ghost regs: seq<Reg>)
      requires i < |hs|
      modifies this`idToPosition
      ensures (s, regs) == SectionOf(digest, G(hs[i], 0), SectionContent(latexContent, hs, i), hs[i].start)
      ensures idToPosition == Register(old(idToPosition), regs)
    {
      var m := hs[i];
      var sectionEnd: nat;
      if i + 1 < |hs| {
        sectionEnd := hs[i + 1].start;
      } else {
        var endDoc := Find(latexContent, EndDocument, 0);
        sectionEnd := if endDoc > 0 then endDoc else |latexContent|;
      }
      var content := PySlice(latexContent, m.start, sectionEnd);
      assert content == SectionContent(latexContent, hs, i);
      s, regs := ParseSection(G(m, 0), content, m.start);
    }

    /** The dispatch on the section name inside `_extract_sections`. */
    method ParseSection(name: string, content: string, startPos: nat) returns (s: Section, ghost regs: seq<Reg>)
      modifies this`idToPosition
      ensures (s, regs) == SectionOf(digest, name, content, startPos)
      ensures idToPosition == Register(old(idToPosition), regs)
    {
      match KindOf(name)
      case ExperienceKind => s, regs := ParseExperienceSection(content, startPos, name);
      case ProjectsKind => s, regs := ParseProjectsSection(content, startPos, name);
      case SkillsKind => s, regs := ParseSkillsSection(content, startPos, name);
      case EducationKind => s, regs := ParseEducationSection(content, startPos, name);
      case GenericKind => s := ParseGenericSection(content, startPos, name); regs := [];
    }

    /** `_parse_experience_section`: one entry per `\resumeSubheading`. */
    method ParseExperienceSection(content: string, startPos: nat, sectionName: string)
      returns (s: Section, ghost regs: seq<Reg>)
      modifies this`idToPosition
      ensures var ms := FindIter(Subheading, content, 0);
              var js := JobsUpTo(digest, content, startPos, ms, |ms|);
              s == Experience(GenerateId(digest, "section_" + sectionName), sectionName, js.0) && regs == js.1
      ensures idToPosition == Register(old(idToPosition), regs)
    {
      var ms := FindIter(Subheading, content, 0);
      var items: seq<Job> := [];
      regs := [];
      var i := 0;
      while i < |ms|
        invariant i <= |ms|
        invariant (items, regs) == JobsUpTo(digest, content, startPos, ms, i)
        invariant idToPosition == Register(old(idToPosition), regs)
      {
        var job; ghost var jregs;
        job, jregs := ParseJob(content, startPos, ms[i]);
        RegisterAppend(old(idToPosition), regs, jregs);
        items := items + [job];
        regs := regs + jregs;
        i := i + 1;
      }
      s := Experience(GenerateId(digest, "section_" + sectionName), sectionName, items);
    }

    /** The body of the loop of `_parse_experience_section`: the entry's
        bullets, then the entry itself, whose span ends at the first list end
        after the heading (at the heading's end when there is none). */
    method ParseJob(content: string, startPos: nat, m: Match) returns (job: Job, ghost regs: seq<Reg>)
      modifies this`idToPosition
      ensures (job, regs) == JobOf(digest, content, startPos, m)
      ensures idToPosition == Register(old(idToPosition), regs)
    {
      var bullets, listEnd; ghost var bregs;
      bullets, listEnd, bregs := ParseEntryBullets(content, startPos, m.end);
      job := JobNode(digest, m, bullets);
      var sp := Span(startPos + m.start, startPos + (if listEnd > 0 then listEnd else m.end));
      JobOfParts(digest, content, startPos, m, bullets, bregs, listEnd);
      RegisterSnoc(old(idToPosition), bregs, (job.id, sp));
      idToPosition := idToPosition[job.id := sp];
      regs := bregs + [(job.id, sp)];
    }

    /** The list lookup shared by experience and project entries: the bullets
        between the first list start and the first list end after the heading,
        parsed only when the start is at a positive index before the end. */
    method ParseEntryBullets(content: string, startPos: nat, from: nat)
      returns (bullets: seq<Bullet>, listEnd: int, ghost regs: seq<Reg>)
      modifies this`idToPosition
      ensures listEnd == Find(content, ListEnd, from)
      ensures (bullets, regs) == EntryBullets(digest, content, startPos, from)
      ensures idToPosition == Register(old(idToPosition), regs)
    {
      var listStart := Find(content, ListStart, from);
      listEnd := Find(content, ListEnd, from);
      bullets, regs := [], [];
      EntryBulletsParts(digest, content, startPos, from, listStart, listEnd);
      if listStart > 0 && listEnd > listStart {
        var bulletsContent := PySlice(content, listStart, listEnd);
        bullets, regs := ParseResumeItems(bulletsContent, startPos + listStart);
      }
    }

    /** `_parse_projects_section`: one entry per `\resumeProjectHeading`. */
    method ParseProjectsSection(content: string, startPos: nat, sectionName: string)
      returns (s: Section, ghost regs: seq<Reg>)
      modifies this`idToPosition
      ensures var ms := FindIter(ProjectHeading, content, 0);
              var ps := ProjectsUpTo(digest, content, startPos, ms, |ms|);
              s == Projects(GenerateId(digest, "section_" + sectionName), sectionName, ps.0) && regs == ps.1
      ensures idToPosition == Register(old(idToPosition), regs)
    {
      var ms := FindIter(ProjectHeading, content, 0);
      var items: seq<Project> := [];
      regs := [];
      var i := 0;
      while i < |ms|
        invariant i <= |ms|
        invariant (items, regs) == ProjectsUpTo(digest, content, startPos, ms, i)
        invariant idToPosition == Register(old(idToPosition), regs)
      {
        var project; ghost var pregs;
        project, pregs := ParseProject(content, startPos, ms[i]);
        RegisterAppend(old(idToPosition), regs, pregs);
        items := items + [project];
        regs := regs + pregs;
        i := i + 1;
      }
      s := Projects(GenerateId(digest, "section_" + sectionName), sectionName, items);
    }

    /** The body of the loop of `_parse_projects_section`. */
    method ParseProject(content: string, startPos: nat, m: Match) returns (project: Project, ghost regs: seq<Reg>)
      modifies this`idToPosition
      ensures (project, regs) == ProjectOf(digest, content, startPos, m)
      ensures idToPosition == Register(old(idToPosition), regs)
    {
      var bullets, listEnd; ghost var bregs;
      bullets, listEnd, bregs := ParseEntryBullets(content, startPos, m.end);
      project := ProjectNode(digest, m, bullets);
      var sp := Span(startPos + m.start, startPos + (if listEnd > 0 then listEnd else m.end));
      ProjectOfParts(digest, content, startPos, m, bullets, bregs, listEnd);
      RegisterSnoc(old(idToPosition), bregs, (project.id, sp));
      idToPosition := idToPosition[project.id := sp];
      regs := bregs + [(project.id, sp)];
    }

    /** `_parse_skills_section`: one category per `\textbf{…}{: …}` line, its
        span exactly the match. */
    method ParseSkillsSection(content: string, startPos: nat, sectionName: string)
      returns (s: Section, ghost regs: seq<Reg>)
      modifies this`idToPosition
      ensures var ms := FindIter(SkillLine, content, 0);
              var cs := CategoriesUpTo(digest, startPos, ms, |ms|);
              s == Skills(GenerateId(digest, "section_" + sectionName), sectionName, cs.0) && regs == cs.1
      ensures idToPosition == Register(old(idToPosition), regs)
    {
      var ms := FindIter(SkillLine, content, 0);
      var categories: seq<Category> := [];
      regs := [];
      var i := 0;
      while i < |ms|
        invariant i <= |ms|
        invariant (categories, regs) == CategoriesUpTo(digest, startPos, ms, i)
        invariant idToPosition == Register(old(idToPosition), regs)
      {
        var c := CategoryOf(digest, startPos, ms[i]);
        RegisterSnoc(old(idToPosition), regs, c.1);
        idToPosition := idToPosition[c.1.0 := c.1.1];
        categories := categories + [c.0];
        regs := regs + [c.1];
        i := i + 1;
      }
      s := Skills(GenerateId(digest, "section_" + sectionName), sectionName, categories);
    }

    /** `_parse_education_section`: one entry per `\resumeSubheading`, its span
        exactly the match; no bullets. */
    method ParseEducationSection(content: string, startPos: nat, sectionName: string)
      returns (s: Section, ghost regs: seq<Reg>)
      modifies this`idToPosition
      ensures var ms := FindIter(Subheading, content, 0);
              var ss := SchoolsUpTo(digest, startPos, ms, |ms|);
              s == Education(GenerateId(digest, "section_" + sectionName), sectionName, ss.0) && regs == ss.1
      ensures idToPosition == Register(old(idToPosition), regs)
    {
      var ms := FindIter(Subheading, content, 0);
      var schools: seq<School> := [];
      regs := [];
      var i := 0;
      while i < |ms|
        invariant i <= |ms|
        invariant (schools, regs) == SchoolsUpTo(digest, startPos, ms, i)
        invariant idToPosition == Register(old(idToPosition), regs)
      {
        var e := SchoolOf(digest, startPos, ms[i]);
        RegisterSnoc(old(idToPosition), regs, e.1);
        idToPosition := idToPosition[e.1.0 := e.1.1];
        schools := schools + [e.0];
        regs := regs + [e.1];
        i := i + 1;
      }
      s := Education(GenerateId(digest, "section_" + sectionName), sectionName, schools);
    }

    /** `_parse_generic_section`: the raw text, and no span is recorded. */
    method ParseGenericSection(content: string, startPos: nat, sectionName: string) returns (s: Section)
      ensures s == Generic(GenerateId(digest, "section_" + sectionName), sectionName, content)
    {
      s := Generic(GenerateId(digest, "section_" + sectionName), sectionName, content);
    }

    /** `_parse_resume_items`: every `\resumeItem{…}` of the list text, whose
        first character is at offset `startPos` of the document; each span is
        the whole invocation. */
    method ParseResumeItems(content: string, startPos: nat) returns (bullets: seq<Bullet>, ghost regs: seq<Reg>)
      modifies this`idToPosition
      ensures (bullets, regs) == Bullets(digest, content, startPos, 0)
      ensures idToPosition == Register(old(idToPosition), regs)
    {
      var ms := FindIter(ResumeItem, content, 0);
      bullets, regs := [], [];
      var i := 0;
      while i < |ms|
        invariant i <= |ms|
        invariant (bullets, regs) == BulletsUpTo(digest, ms, startPos, 0, i)
        invariant idToPosition == Register(old(idToPosition), regs)
      {
        var b := BulletOf(digest, startPos, 0, ms[i]);
        RegisterSnoc(old(idToPosition), regs, b.1);
        idToPosition := idToPosition[b.1.0 := b.1.1];
        bullets := bullets + [b.0];
        regs := regs + [b.1];
        i := i + 1;
      }
    }

    /** `get_displayable_tree`: the header line, then for each section its own
        line followed by the lines of its children, collected in order and
        joined with newlines. */
    method GetDisplayableTree() returns (r: string)
      ensures r == RenderOutline(tree)
    {
      var lines: seq<string> := [Header];
      var sections := tree.sections;
      var i := 0;
      while i < |sections|
        invariant i <= |sections|
        invariant lines == [Header] + SectionsLines(sections[..i])
      {
        lines := AppendSectionLines(lines, sections[i]);
        SectionsLinesSnoc(sections, i);
        AppendAssoc([Header], SectionsLines(sections[..i]), SectionLines(sections[i]));
        i := i + 1;
      }
      assert sections[..i] == sections;
      r := Join("\n", lines);
    }

    /** The body of the section loop of `get_displayable_tree`: the section's
        line, then the lines of its children as its type dictates. */
    static method AppendSectionLines(lines: seq<string>, s: Section) returns (out: seq<string>)
      ensures out == lines + SectionLines(s)
    {
      var head := lines + [SectionLine(s)];
      ghost var children := SectionLines(s)[1..];
      assert SectionLines(s) == [SectionLine(s)] + children;
      AppendAssoc(lines, [SectionLine(s)], children);
      match s
      case Skills(_, _, cs) => out := AppendCategoryLines(head, cs);
      case Experience(_, _, js) => out := AppendJobsLines(head, js);
      case Projects(_, _, ps) => out := AppendProjectsLines(head, ps);
      case Education(_, _, es) => out := AppendSchoolLines(head, es);
      case Generic(_, _, _) => out := head;
    }

    /** One line per skill category. */
    static method AppendCategoryLines(lines: seq<string>, cs: seq<Category>) returns (out: seq<string>)
      ensures out == lines + CategoryLines(cs)
    {
      out := lines;
      var k := 0;
      while k < |cs|
        invariant k <= |cs|
        invariant out == lines + CategoryLines(cs[..k])
      {
        out := out + [CategoryLine(cs[k])];
        CategoryLinesSnoc(cs, k);
        k := k + 1;
      }
      assert cs[..k] == cs;
    }

    /** One line per school. */
    static method AppendSchoolLines(lines: seq<string>, es: seq<School>) returns (out: seq<string>)
      ensures out == lines + SchoolLines(es)
    {
      out := lines;
      var k := 0;
      while k < |es|
        invariant k <= |es|
        invariant out == lines + SchoolLines(es[..k])
      {
        out := out + [SchoolLine(es[k])];
        SchoolLinesSnoc(es, k);
        k := k + 1;
      }
      assert es[..k] == es;
    }

    /** An experience entry's line, then one line per bullet, for each entry. */
    static method AppendJobsLines(lines: seq<string>, js: seq<Job>) returns (out: seq<string>)
      ensures out == lines + JobsLines(js)
    {
      out := lines;
      var k := 0;
      while k < |js|
        invariant k <= |js|
        invariant out == lines + JobsLines(js[..k])
      {
        var withHead := out + [JobHeadLine(js[k])];
        out := AppendBulletLines(withHead, js[k].bullets);
        AppendAssoc(lines + JobsLines(js[..k]), [JobHeadLine(js[k])], BulletLines(js[k].bullets));
        AppendAssoc(lines, JobsLines(js[..k]), JobLines(js[k]));
        JobsLinesSnoc(js, k);
        k := k + 1;
      }
      assert js[..k] == js;
    }

    /** A project's line, then one line per bullet, for each project. */
    static method AppendProjectsLines(lines: seq<string>, ps: seq<Project>) returns (out: seq<string>)
      ensures out == lines + ProjectsLines(ps)
    {
      out := lines;
      var k := 0;
      while k < |ps|
        invariant k <= |ps|
        invariant out == lines + ProjectsLines(ps[..k])
      {
        var withHead := out + [ProjectHeadLine(ps[k])];
        out := AppendBulletLines(withHead, ps[k].bullets);
        AppendAssoc(lines + ProjectsLines(ps[..k]), [ProjectHeadLine(ps[k])], BulletLines(ps[k].bullets));
        AppendAssoc(lines, ProjectsLines(ps[..k]), ProjectLines(ps[k]));
        ProjectsLinesSnoc(ps, k);
        k := k + 1;
      }
      assert ps[..k] == ps;
    }

    /** The bullet loop of `get_displayable_tree`: one preview line per bullet. */
    static method AppendBulletLines(lines: seq<string>, bs: seq<Bullet>) returns (out: seq<string>)
      ensures out == lines + BulletLines(bs)
    {
      out := lines;
      var k := 0;
      while k < |bs|
        invariant k <= |bs|
        invariant out == lines + BulletLines(bs[..k])
      {
        out := out + [BulletLine(bs[k])];
        BulletLinesSnoc(bs, k);
        k := k + 1;
      }
      assert bs[..k] == bs;
    }

    /** `apply_edit_by_id`: a function of the text and the id map the parser
        holds, so it changes neither. */
    function ApplyEditById(elementId: string, action: string, newText: string): (r: Result<string, EditError>)
      reads this
      ensures r.Failure? <==> elementId !in idToPosition
      ensures r.Success? && action != "remove" && action != "modify" ==> r.value == latexContent
    {
      ApplyEdit(latexContent, idToPosition, elementId, action, newText)
    }
  }

  /** A parser constructed on `text` and then asked to `parse()` holds exactly
      the tree and id map that `ParseSpec.Parse` describes. */
  method ParseNew(digest: Digest, text: string) returns (p: LaTeXResumeParser)
    ensures fresh(p) && p.digest == digest && p.latexContent == text
    ensures (p.tree, p.idToPosition) == ParseSpec.Parse(digest, text)
  {
    p := new LaTeXResumeParser(digest, text);
    var _ := p.Parse();
    ghost var secs := Sections(digest, text);
    assert [] + secs.0 == secs.0;
    assert p.tree == Tree(secs.0, PreambleOf(text, ""), DocumentClassOf(text, ""));
  }
}
