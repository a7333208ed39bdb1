/** What the parse guarantees about the spans it records. */
module ParseProps {
  import opened PyStr
  import opened Regex
  import opened ResumeTree
  import opened ParseSpec
  import opened Wrappers

  /** Every match of the list is non-empty and inside a text of length `len`. */
  predicate MatchesIn(ms: seq<Match>, len: nat) {
    forall k :: 0 <= k < |ms| ==> ms[k].start < ms[k].end <= len
  }

  lemma FindIterIn(p: Pattern, s: string, from: nat)
    ensures MatchesIn(FindIter(p, s, from), |s|)
  {
    FindIterOrdered(p, s, from);
  }

  lemma BulletStepIn(digest: Digest, ms: seq<Match>, base: nat, off: nat, n: nat, lo: nat, hi: nat)
    requires 0 < n <= |ms| && lo <= base + off && ms[n - 1].start < ms[n - 1].end && base + off + ms[n - 1].end <= hi
    requires SpansIn(BulletsUpTo(digest, ms, base, off, n - 1).1, lo, hi)
    ensures SpansIn(BulletsUpTo(digest, ms, base, off, n).1, lo, hi)
  {
    SpansInSnoc(BulletsUpTo(digest, ms, base, off, n - 1).1, BulletOf(digest, base, off, ms[n - 1]).1, lo, hi);
  }

  lemma {:induction false} BulletsUpToIn(digest: Digest, ms: seq<Match>, base: nat, off: nat, n: nat, lo: nat, hi: nat)
    requires n <= |ms| && lo <= base + off && forall k :: 0 <= k < |ms| ==> ms[k].start < ms[k].end && base + off + ms[k].end <= hi
    ensures SpansIn(BulletsUpTo(digest, ms, base, off, n).1, lo, hi)
    decreases n
  {
    if n > 0 {
      BulletsUpToIn(digest, ms, base, off, n - 1, lo, hi);
      BulletStepIn(digest, ms, base, off, n, lo, hi);
    }
  }

  /** Every bullet span lies inside the list text it was parsed from. */
  lemma BulletsIn(digest: Digest, content: string, base: nat, off: nat)
    ensures SpansIn(Bullets(digest, content, base, off).1, base + off, base + off + |content|)
  {
    var ms := FindIter(ResumeItem, content, 0);
    FindIterIn(ResumeItem, content, 0);
    BulletsUpToIn(digest, ms, base, off, |ms|, base + off, base + off + |content|);
  }

  /** The bullets and the span of an entry whose heading match is `m` lie
      inside its section text. */
  lemma EntryIn(digest: Digest, content: string, base: nat, m: Match)
    requires m.start < m.end <= |content|
    ensures SpansIn(EntryBullets(digest, content, base, m.end).1, base, base + |content|)
    ensures m.start <= EntryEnd(content, m.end) <= |content|
  {
    var ls := Find(content, ListStart, m.end);
    var le := Find(content, ListEnd, m.end);
    assert le == -1 || m.end <= le <= |content|;
    if ls > 0 && le > ls {
      var c := PySlice(content, ls, le);
      assert |c| == le - ls;
      BulletsIn(digest, c, base, ls);
      SpansInWiden(Bullets(digest, c, base, ls).1, base + ls, base + ls + |c|, base, base + |content|);
    }
  }

  lemma JobIn(digest: Digest, content: string, base: nat, m: Match)
    requires m.start < m.end <= |content|
    ensures SpansIn(JobOf(digest, content, base, m).1, base, base + |content|)
  {
    EntryIn(digest, content, base, m);
    var bl := EntryBullets(digest, content, base, m.end).1;
    var item := (JobNode(digest, m, EntryBullets(digest, content, base, m.end).0).id, Span(base + m.start, base + EntryEnd(content, m.end)));
    SpansInSnoc(bl, item, base, base + |content|);
  }

  lemma JobStepIn(digest: Digest, content: string, base: nat, ms: seq<Match>, n: nat)
    requires 0 < n <= |ms| && ms[n - 1].start < ms[n - 1].end <= |content|
    requires SpansIn(JobsUpTo(digest, content, base, ms, n - 1).1, base, base + |content|)
    ensures SpansIn(JobsUpTo(digest, content, base, ms, n).1, base, base + |content|)
  {
    var m := ms[n - 1];
    JobIn(digest, content, base, m);
    SpansInConcat(JobsUpTo(digest, content, base, ms, n - 1).1, JobOf(digest, content, base, m).1, base, base + |content|);
  }

  lemma {:induction false} JobsUpToIn(digest: Digest, content: string, base: nat, ms: seq<Match>, n: nat)
    requires n <= |ms| && MatchesIn(ms, |content|)
    ensures SpansIn(JobsUpTo(digest, content, base, ms, n).1, base, base + |content|)
    decreases n
  {
    if n > 0 {
      JobsUpToIn(digest, content, base, ms, n - 1);
      JobStepIn(digest, content, base, ms, n);
    }
  }

  lemma ProjectIn(digest: Digest, content: string, base: nat, m: Match)
    requires m.start < m.end <= |content|
    ensures SpansIn(ProjectOf(digest, content, base, m).1, base, base + |content|)
  {
    EntryIn(digest, content, base, m);
    var bl := EntryBullets(digest, content, base, m.end).1;
    var item := (ProjectNode(digest, m, EntryBullets(digest, content, base, m.end).0).id, Span(base + m.start, base + EntryEnd(content, m.end)));
    SpansInSnoc(bl, item, base, base + |content|);
  }

  lemma ProjectStepIn(digest: Digest, content: string, base: nat, ms: seq<Match>, n: nat)
    requires 0 < n <= |ms| && ms[n - 1].start < ms[n - 1].end <= |content|
    requires SpansIn(ProjectsUpTo(digest, content, base, ms, n - 1).1, base, base + |content|)
    ensures SpansIn(ProjectsUpTo(digest, content, base, ms, n).1, base, base + |content|)
  {
    var m := ms[n - 1];
    ProjectIn(digest, content, base, m);
    SpansInConcat(ProjectsUpTo(digest, content, base, ms, n - 1).1, ProjectOf(digest, content, base, m).1, base, base + |content|);
  }

  lemma {:induction false} ProjectsUpToIn(digest: Digest, content: string, base: nat, ms: seq<Match>, n: nat)
    requires n <= |ms| && MatchesIn(ms, |content|)
    ensures SpansIn(ProjectsUpTo(digest, content, base, ms, n).1, base, base + |content|)
    decreases n
  {
    if n > 0 {
      ProjectsUpToIn(digest, content, base, ms, n - 1);
      ProjectStepIn(digest, content, base, ms, n);
    }
  }

  lemma CategoryStepIn(digest: Digest, base: nat, ms: seq<Match>, n: nat, len: nat)
    requires 0 < n <= |ms| && MatchesIn(ms, len)
    requires SpansIn(CategoriesUpTo(digest, base, ms, n - 1).1, base, base + len)
    ensures SpansIn(CategoriesUpTo(digest, base, ms, n).1, base, base + len)
  {
    SpansInSnoc(CategoriesUpTo(digest, base, ms, n - 1).1, CategoryOf(digest, base, ms[n - 1]).1, base, base + len);
  }

  lemma {:induction false} CategoriesUpToIn(digest: Digest, base: nat, ms: seq<Match>, n: nat, len: nat)
    requires n <= |ms| && MatchesIn(ms, len)
    ensures SpansIn(CategoriesUpTo(digest, base, ms, n).1, base, base + len)
    decreases n
  {
    if n > 0 {
      CategoriesUpToIn(digest, base, ms, n - 1, len);
      CategoryStepIn(digest, base, ms, n, len);
    }
  }

  lemma SchoolStepIn(digest: Digest, base: nat, ms: seq<Match>, n: nat, len: nat)
    requires 0 < n <= |ms| && MatchesIn(ms, len)
    requires SpansIn(SchoolsUpTo(digest, base, ms, n - 1).1, base, base + len)
    ensures SpansIn(SchoolsUpTo(digest, base, ms, n).1, base, base + len)
  {
    SpansInSnoc(SchoolsUpTo(digest, base, ms, n - 1).1, SchoolOf(digest, base, ms[n - 1]).1, base, base + len);
  }

  lemma {:induction false} SchoolsUpToIn(digest: Digest, base: nat, ms: seq<Match>, n: nat, len: nat)
    requires n <= |ms| && MatchesIn(ms, len)
    ensures SpansIn(SchoolsUpTo(digest, base, ms, n).1, base, base + len)
    decreases n
  {
    if n > 0 {
      SchoolsUpToIn(digest, base, ms, n - 1, len);
      SchoolStepIn(digest, base, ms, n, len);
    }
  }

  /** Every span a section registers lies inside the section's text. */
  lemma SectionIn(digest: Digest, name: string, content: string, base: nat)
    ensures SpansIn(SectionOf(digest, name, content, base).1, base, base + |content|)
  {
    match KindOf(name)
    case ExperienceKind =>
      FindIterIn(Subheading, content, 0);
      JobsUpToIn(digest, content, base, FindIter(Subheading, content, 0), |FindIter(Subheading, content, 0)|);
    case ProjectsKind =>
      FindIterIn(ProjectHeading, content, 0);
      ProjectsUpToIn(digest, content, base, FindIter(ProjectHeading, content, 0), |FindIter(ProjectHeading, content, 0)|);
    case SkillsKind =>
      FindIterIn(SkillLine, content, 0);
      CategoriesUpToIn(digest, base, FindIter(SkillLine, content, 0), |FindIter(SkillLine, content, 0)|, |content|);
    case EducationKind =>
      FindIterIn(Subheading, content, 0);
      SchoolsUpToIn(digest, base, FindIter(Subheading, content, 0), |FindIter(Subheading, content, 0)|, |content|);
    case GenericKind =>
  }

  lemma SectionStepIn(digest: Digest, text: string, hs: seq<Match>, n: nat)
    requires 0 < n <= |hs| && MatchesIn(hs, |text|)
    requires SpansIn(SectionsUpTo(digest, text, hs, n - 1).1, 0, |text|)
    ensures SpansIn(SectionsUpTo(digest, text, hs, n).1, 0, |text|)
  {
    var h := hs[n - 1];
    var c := SectionContent(text, hs, n - 1);
    SectionIn(digest, G(h, 0), c, h.start);
    assert h.start + |c| <= |text|;
    var regs := SectionOf(digest, G(h, 0), c, h.start).1;
    SpansInWiden(regs, h.start, h.start + |c|, 0, |text|);
    SpansInConcat(SectionsUpTo(digest, text, hs, n - 1).1, regs, 0, |text|);
  }

  lemma {:induction false} SectionsUpToIn(digest: Digest, text: string, hs: seq<Match>, n: nat)
    requires n <= |hs| && MatchesIn(hs, |text|)
    ensures SpansIn(SectionsUpTo(digest, text, hs, n).1, 0, |text|)
    decreases n
  {
    if n > 0 {
      SectionsUpToIn(digest, text, hs, n - 1);
      SectionStepIn(digest, text, hs, n);
    }
  }

  /** Every span recorded while parsing `text` satisfies
      `0 <= start <= end <= |text|`. */
  lemma ParseSpansInBounds(digest: Digest, text: string)
    ensures SpansIn(Sections(digest, text).1, 0, |text|)
    ensures MapSpansIn(Parse(digest, text).1, 0, |text|)
  {
    FindIterIn(SectionHeader, text, 0);
    SectionsUpToIn(digest, text, Headers(text), |Headers(text)|);
    RegisterSpansIn(map[], Sections(digest, text).1, 0, |text|);
  }

  // ---------------------------------------------------------------------------
  // One step of each parsing loop
  // ---------------------------------------------------------------------------

  lemma {:induction false} BulletsUpToShift(digest: Digest, ms: seq<Match>, base: nat, off: nat, n: nat)
    requires n <= |ms|
    ensures BulletsUpTo(digest, ms, base, off, n) == BulletsUpTo(digest, ms, base + off, 0, n)
    decreases n
  {
    if n > 0 {
      BulletsUpToShift(digest, ms, base, off, n - 1);
      BulletOfShift(digest, base, off, ms[n - 1]);
    }
  }

  lemma BulletOfShift(digest: Digest, base: nat, off: nat, m: Match)
    ensures BulletOf(digest, base, off, m) == BulletOf(digest, base + off, 0, m)
  {
  }

  /** Where the offset of a list is counted does not matter: a list at offset
      `off` of a section at `base` gives the bullets of a list at `base + off`. */
  lemma BulletsShift(digest: Digest, content: string, base: nat, off: nat)
    ensures Bullets(digest, content, base, off) == Bullets(digest, content, base + off, 0)
  {
    var ms := FindIter(ResumeItem, content, 0);
    BulletsUpToShift(digest, ms, base, off, |ms|);
  }

  /** An entry's bullets, from the two list positions the parser looks up. */
  lemma EntryBulletsParts(digest: Digest, content: string, base: nat, from: nat, ls: int, le: int)
    requires ls == Find(content, ListStart, from) && le == Find(content, ListEnd, from)
    ensures EntryBullets(digest, content, base, from)
         == if ls > 0 && le > ls then Bullets(digest, PySlice(content, ls, le), base + ls, 0) else ([], [])
  {
    if ls > 0 && le > ls {
      BulletsShift(digest, PySlice(content, ls, le), base, ls);
    }
  }

  // ---------------------------------------------------------------------------
  // One entry, from the pieces the parser computes
  // ---------------------------------------------------------------------------

  /** An experience entry is its bullets, then its node with a span from the
      heading to the first list end after it (the heading's end when none). */
  lemma JobOfParts(digest: Digest, content: string, base: nat, m: Match,
                   bullets: seq<Bullet>, bregs: seq<Reg>, listEnd: int)
    requires (bullets, bregs) == EntryBullets(digest, content, base, m.end)
    requires listEnd == Find(content, ListEnd, m.end)
    ensures var job := JobNode(digest, m, bullets);
      JobOf(digest, content, base, m)
        == (job, bregs + [(job.id, Span(base + m.start, base + (if listEnd > 0 then listEnd else m.end)))])
  {
  }

  /** A project entry, likewise. */
  lemma ProjectOfParts(digest: Digest, content: string, base: nat, m: Match,
                       bullets: seq<Bullet>, bregs: seq<Reg>, listEnd: int)
    requires (bullets, bregs) == EntryBullets(digest, content, base, m.end)
    requires listEnd == Find(content, ListEnd, m.end)
    ensures var project := ProjectNode(digest, m, bullets);
      ProjectOf(digest, content, base, m)
        == (project, bregs + [(project.id, Span(base + m.start, base + (if listEnd > 0 then listEnd else m.end)))])
  {
  }

  /** One more section: its node is appended and its writes follow. */
  lemma SectionsUpToStep(digest: Digest, text: string, hs: seq<Match>, i: nat,
                         parsed: seq<Section>, regs: seq<Reg>, s: Section, sregs: seq<Reg>)
    requires i < |hs|
    requires (parsed, regs) == SectionsUpTo(digest, text, hs, i)
    requires (s, sregs) == SectionOf(digest, G(hs[i], 0), SectionContent(text, hs, i), hs[i].start)
    ensures (parsed + [s], regs + sregs) == SectionsUpTo(digest, text, hs, i + 1)
  {
  }
}
