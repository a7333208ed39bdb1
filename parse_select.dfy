/** What the spans the parse records select in the text: every bullet span is
    one `\resumeItem{…}` match of the text, start to end; every entry span
    begins with its heading and ends with it or where the list end after it
    begins; a skill line or an education entry is its match. */
module ParseSelect {
  import opened PyStr
  import opened Regex
  import opened ResumeTree
  import opened ParseSpec
  import opened Wrappers
  import IdEdit
  import ParseProps

  /** The span is one `\resumeItem{…}` match of the text, start to end. */
  predicate ItemSpan(text: string, sp: Span) {
    var r := ResumeItemAt(text, sp.start);
    r.Some? && r.value.end == sp.end
  }

  /** The span begins with `lead` and its last character is a closing brace. */
  predicate MatchSpan(text: string, sp: Span, lead: string) {
    Occurs(text, lead, sp.start) && sp.start < sp.end <= |text| && text[sp.end - 1] == '}'
  }

  /** The span begins with `lead` and ends either just after a closing brace
      or where a `\resumeItemListEnd` begins. */
  predicate EntrySpan(text: string, sp: Span, lead: string) {
    MatchSpan(text, sp, lead) || (Occurs(text, lead, sp.start) && Occurs(text, ListEnd, sp.end))
  }

  /** What any recorded span selects: a bullet, an experience or education
      entry, a project entry or a skill line. */
  predicate Selects(text: string, sp: Span) {
    || ItemSpan(text, sp)
    || EntrySpan(text, sp, Lead(Subheading))
    || EntrySpan(text, sp, Lead(ProjectHeading))
    || MatchSpan(text, sp, Lead(SkillLine))
  }

  predicate AllItems(text: string, regs: seq<Reg>) {
    forall k :: 0 <= k < |regs| ==> ItemSpan(text, regs[k].1)
  }

  /** Every span is a bullet or an entry headed by `lead`. */
  predicate AllEntries(text: string, regs: seq<Reg>, lead: string) {
    forall k :: 0 <= k < |regs| ==> ItemSpan(text, regs[k].1) || EntrySpan(text, regs[k].1, lead)
  }

  /** Every span begins with `lead` and ends with a closing brace. */
  predicate AllMatchSpans(text: string, regs: seq<Reg>, lead: string) {
    forall k :: 0 <= k < |regs| ==> MatchSpan(text, regs[k].1, lead)
  }

  predicate AllSelect(text: string, regs: seq<Reg>) {
    forall k :: 0 <= k < |regs| ==> Selects(text, regs[k].1)
  }

  /** Every match of the list begins with `lead` in `content` and ends with a
      closing brace. */
  predicate Shapes(content: string, ms: seq<Match>, lead: string) {
    forall k :: 0 <= k < |ms| ==> MatchSpan(content, Span(ms[k].start, ms[k].end), lead)
  }

  /** Every match of the list is a bullet match at its own start. */
  predicate ItemsSound(content: string, ms: seq<Match>) {
    forall k :: 0 <= k < |ms| ==> ResumeItemAt(content, ms[k].start) == Some(ms[k])
  }

  // ---------------------------------------------------------------------------
  // Matches found by `finditer`
  // ---------------------------------------------------------------------------

  lemma FindIterShapes(p: Pattern, content: string)
    ensures Shapes(content, FindIter(p, content, 0), Lead(p))
  {
    var ms := FindIter(p, content, 0);
    forall k | 0 <= k < |ms| ensures MatchSpan(content, Span(ms[k].start, ms[k].end), Lead(p)) {
      FindIterAt(p, content, k);
      MatchShape(p, content, ms[k]);
    }
  }

  lemma FindIterAt(p: Pattern, content: string, k: nat)
    requires k < |FindIter(p, content, 0)|
    ensures MatchAt(p, content, FindIter(p, content, 0)[k].start) == Some(FindIter(p, content, 0)[k])
  {
    FindIterSound(p, content, 0);
  }

  /** A match begins with the pattern's literal and ends with a closing brace. */
  lemma MatchShape(p: Pattern, s: string, m: Match)
    requires MatchAt(p, s, m.start) == Some(m)
    ensures MatchSpan(s, Span(m.start, m.end), Lead(p))
  {
    MatchAtShape(p, s, m.start);
  }

  lemma FindIterItems(content: string)
    ensures ItemsSound(content, FindIter(ResumeItem, content, 0))
  {
    FindIterSound(ResumeItem, content, 0);
  }

  // ---------------------------------------------------------------------------
  // Joining lists of writes
  // ---------------------------------------------------------------------------

  lemma AllItemsSnoc(text: string, regs: seq<Reg>, r: Reg)
    requires AllItems(text, regs) && ItemSpan(text, r.1)
    ensures AllItems(text, regs + [r])
  {
    forall k | 0 <= k < |regs + [r]| ensures ItemSpan(text, (regs + [r])[k].1) {
      if k < |regs| { assert (regs + [r])[k] == regs[k]; }
    }
  }

  lemma AllEntriesConcat(text: string, a: seq<Reg>, b: seq<Reg>, lead: string)
    requires AllEntries(text, a, lead) && AllEntries(text, b, lead)
    ensures AllEntries(text, a + b, lead)
  {
    forall k | 0 <= k < |a + b| ensures ItemSpan(text, (a + b)[k].1) || EntrySpan(text, (a + b)[k].1, lead) {
      if k < |a| { assert (a + b)[k] == a[k]; } else { assert (a + b)[k] == b[k - |a|]; }
    }
  }

  lemma AllMatchSpansSnoc(text: string, a: seq<Reg>, r: Reg, lead: string)
    requires AllMatchSpans(text, a, lead) && MatchSpan(text, r.1, lead)
    ensures AllMatchSpans(text, a + [r], lead)
  {
    forall k | 0 <= k < |a + [r]| ensures MatchSpan(text, (a + [r])[k].1, lead) {
      if k < |a| { assert (a + [r])[k] == a[k]; }
    }
  }

  lemma AllSelectConcat(text: string, a: seq<Reg>, b: seq<Reg>)
    requires AllSelect(text, a) && AllSelect(text, b)
    ensures AllSelect(text, a + b)
  {
    forall k | 0 <= k < |a + b| ensures Selects(text, (a + b)[k].1) {
      if k < |a| { assert (a + b)[k] == a[k]; } else { assert (a + b)[k] == b[k - |a|]; }
    }
  }

  lemma ItemsAreEntries(text: string, regs: seq<Reg>, lead: string)
    requires AllItems(text, regs)
    ensures AllEntries(text, regs, lead)
  {
  }

  /** A bullet span lies on the text of the `\resumeItem{` it names, which is
      what `IdEdit.ModifiedBulletReparses` asks of the span it rewrites. */
  lemma ItemSpanHoldsItem(text: string, sp: Span)
    requires ItemSpan(text, sp)
    ensures sp.start < sp.end <= |text|
    ensures Occurs(PySlice(text, sp.start, sp.end), IdEdit.ItemOpen, 0)
    ensures Contains(PySlice(text, sp.start, sp.end), IdEdit.ItemOpen)
  {
    ResumeItemAtShape(text, sp.start);
    var w := PySlice(text, sp.start, sp.end);
    SliceOfSlice(text, sp.start, sp.end, 0, 12);
    assert w[0..12] == IdEdit.ItemOpen;
    ContainsSpec(w, IdEdit.ItemOpen);
  }

  /** A bullet span of the id map can be rewritten by `modify` and the new
      bullet is read back at the same place with exactly the new text. */
  lemma ItemSpanRewrites(text: string, positions: map<string, Span>, id: string, newText: string)
    requires id in positions && ItemSpan(text, positions[id])
    requires forall i :: 0 <= i < |newText| ==> !IsBrace(newText[i])
    ensures positions[id].start < |text| && Min(positions[id].start, |text|) == positions[id].start
    ensures var at := Min(positions[id].start, |text|);
      var r := IdEdit.ApplyEdit(text, positions, id, "modify", newText).value;
      ResumeItemAt(r, at) == Some(Match(at, at + |newText| + 13, [newText]))
  {
    ItemSpanHoldsItem(text, positions[id]);
    IdEdit.ModifiedBulletReparses(text, positions, id, newText);
  }

  // ---------------------------------------------------------------------------
  // Bullets
  // ---------------------------------------------------------------------------

  lemma BulletSpan(digest: Digest, base: nat, off: nat, m: Match)
    ensures BulletOf(digest, base, off, m).1.1 == Span(base + off + m.start, base + off + m.end)
  {
  }

  /** A bullet match of a piece of the text at `a` is one of the text. */
  lemma ItemSpanIn(text: string, content: string, a: nat, m: Match)
    requires Occurs(text, content, a) && ResumeItemAt(content, m.start) == Some(m)
    ensures ItemSpan(text, Span(a + m.start, a + m.end))
  {
    ResumeItemAtIn(text, a, a + |content|, m.start);
  }

  lemma {:induction false} BulletsUpToSelect(digest: Digest, text: string, content: string, ms: seq<Match>,
                                             base: nat, off: nat, n: nat)
    requires n <= |ms| && Occurs(text, content, base + off) && ItemsSound(content, ms)
    ensures AllItems(text, BulletsUpTo(digest, ms, base, off, n).1)
    decreases n
  {
    if n > 0 {
      var m := ms[n - 1];
      BulletsUpToSelect(digest, text, content, ms, base, off, n - 1);
      BulletsUpToSnoc(digest, ms, base, off, n);
      BulletSpan(digest, base, off, m);
      BulletStepSelect(text, content, base + off, m, BulletsUpTo(digest, ms, base, off, n - 1).1,
                       BulletOf(digest, base, off, m).1);
    }
  }

  /** One more bullet: a bullet match of the list at `a` adds a bullet span. */
  lemma BulletStepSelect(text: string, content: string, a: nat, m: Match, prev: seq<Reg>, r: Reg)
    requires Occurs(text, content, a) && ResumeItemAt(content, m.start) == Some(m)
    requires r.1 == Span(a + m.start, a + m.end) && AllItems(text, prev)
    ensures AllItems(text, prev + [r])
  {
    ItemSpanIn(text, content, a, m);
    AllItemsSnoc(text, prev, r);
  }

  lemma BulletsUpToSnoc(digest: Digest, ms: seq<Match>, base: nat, off: nat, n: nat)
    requires 0 < n <= |ms|
    ensures BulletsUpTo(digest, ms, base, off, n).1
         == BulletsUpTo(digest, ms, base, off, n - 1).1 + [BulletOf(digest, base, off, ms[n - 1]).1]
  {
  }

  /** Every bullet span of a list that lies at `base + off` of the text is a
      `\resumeItem{…}` match of the text, start to end. */
  lemma BulletsSelect(digest: Digest, text: string, content: string, base: nat, off: nat)
    requires Occurs(text, content, base + off)
    ensures AllItems(text, Bullets(digest, content, base, off).1)
  {
    var ms := FindIter(ResumeItem, content, 0);
    FindIterItems(content);
    BulletsUpToSelect(digest, text, content, ms, base, off, |ms|);
  }

  /** The bullets of an entry of a section text that lies at `base`. */
  lemma EntryBulletsSelect(digest: Digest, text: string, content: string, base: nat, from: nat)
    requires Occurs(text, content, base)
    ensures AllItems(text, EntryBullets(digest, content, base, from).1)
  {
    var ls := Find(content, ListStart, from);
    var le := Find(content, ListEnd, from);
    if ls > 0 && le > ls {
      var c := PySlice(content, ls, le);
      PySliceAt(content, ls, le);
      OccursCompose(text, base, content, ls, c);
      BulletsSelect(digest, text, c, base, ls);
    }
  }

  // ---------------------------------------------------------------------------
  // Entries, skill lines and schools
  // ---------------------------------------------------------------------------

  /** A match of a section text that lies at `base` gives a span of the text
      with the same leading literal and closing brace. */
  lemma MatchSpanIn(text: string, content: string, base: nat, lead: string, m: Match)
    requires Occurs(text, content, base) && MatchSpan(content, Span(m.start, m.end), lead)
    ensures MatchSpan(text, Span(base + m.start, base + m.end), lead)
  {
    OccursCompose(text, base, content, m.start, lead);
    OccursChar(text, content, base, m.end - 1);
  }

  /** An entry's span begins with its heading and ends where the list end
      after it begins, or with the heading when there is none. */
  lemma EntrySpanIn(text: string, content: string, base: nat, lead: string, m: Match)
    requires Occurs(text, content, base) && MatchSpan(content, Span(m.start, m.end), lead)
    ensures EntrySpan(text, Span(base + m.start, base + EntryEnd(content, m.end)), lead)
  {
    MatchSpanIn(text, content, base, lead, m);
    var le := Find(content, ListEnd, m.end);
    FindSpec(content, ListEnd, m.end);
    if le > 0 {
      OccursCompose(text, base, content, le, ListEnd);
    }
  }

  /** The writes of one entry: its bullets, then its own span. */
  lemma EntryRegs(digest: Digest, text: string, content: string, base: nat, lead: string, m: Match, id: string)
    requires Occurs(text, content, base) && MatchSpan(content, Span(m.start, m.end), lead)
    ensures AllEntries(text, EntryBullets(digest, content, base, m.end).1
                             + [(id, Span(base + m.start, base + EntryEnd(content, m.end)))], lead)
  {
    var bregs := EntryBullets(digest, content, base, m.end).1;
    var r := (id, Span(base + m.start, base + EntryEnd(content, m.end)));
    EntryBulletsSelect(digest, text, content, base, m.end);
    EntrySpanIn(text, content, base, lead, m);
    ItemsAreEntries(text, bregs, lead);
    assert AllEntries(text, [r], lead);
    AllEntriesConcat(text, bregs, [r], lead);
  }

  lemma AllEntriesSame(text: string, a: seq<Reg>, b: seq<Reg>, lead: string)
    requires a == b && AllEntries(text, b, lead)
    ensures AllEntries(text, a, lead)
  {
  }

  lemma JobSelect(digest: Digest, text: string, content: string, base: nat, lead: string, m: Match)
    requires Occurs(text, content, base) && MatchSpan(content, Span(m.start, m.end), lead)
    ensures AllEntries(text, JobOf(digest, content, base, m).1, lead)
  {
    var id := JobOf(digest, content, base, m).0.id;
    var bregs := EntryBullets(digest, content, base, m.end).1;
    JobRegs(digest, content, base, m, bregs);
    EntryRegs(digest, text, content, base, lead, m, id);
    AllEntriesSame(text, JobOf(digest, content, base, m).1,
                   bregs + [(id, Span(base + m.start, base + EntryEnd(content, m.end)))], lead);
  }

  /** The writes of an experience entry: its bullets', then its own. */
  lemma JobRegs(digest: Digest, content: string, base: nat, m: Match, bregs: seq<Reg>)
    requires bregs == EntryBullets(digest, content, base, m.end).1
    ensures var e := JobOf(digest, content, base, m);
      e.1 == bregs + [(e.0.id, Span(base + m.start, base + EntryEnd(content, m.end)))]
  {
    ParseProps.JobOfParts(digest, content, base, m, EntryBullets(digest, content, base, m.end).0, bregs,
                          Find(content, ListEnd, m.end));
  }

  lemma {:induction false} JobsUpToSelect(digest: Digest, text: string, content: string, base: nat,
                                          lead: string, ms: seq<Match>, n: nat)
    requires n <= |ms| && Occurs(text, content, base) && Shapes(content, ms, lead)
    ensures AllEntries(text, JobsUpTo(digest, content, base, ms, n).1, lead)
    decreases n
  {
    if n > 0 {
      JobsUpToSelect(digest, text, content, base, lead, ms, n - 1);
      JobSelect(digest, text, content, base, lead, ms[n - 1]);
      AllEntriesConcat(text, JobsUpTo(digest, content, base, ms, n - 1).1, JobOf(digest, content, base, ms[n - 1]).1, lead);
    }
  }

  lemma ProjectSelect(digest: Digest, text: string, content: string, base: nat, lead: string, m: Match)
    requires Occurs(text, content, base) && MatchSpan(content, Span(m.start, m.end), lead)
    ensures AllEntries(text, ProjectOf(digest, content, base, m).1, lead)
  {
    var id := ProjectOf(digest, content, base, m).0.id;
    var bregs := EntryBullets(digest, content, base, m.end).1;
    ProjectRegs(digest, content, base, m, bregs);
    EntryRegs(digest, text, content, base, lead, m, id);
    AllEntriesSame(text, ProjectOf(digest, content, base, m).1,
                   bregs + [(id, Span(base + m.start, base + EntryEnd(content, m.end)))], lead);
  }

  /** The writes of a project entry: its bullets', then its own. */
  lemma ProjectRegs(digest: Digest, content: string, base: nat, m: Match, bregs: seq<Reg>)
    requires bregs == EntryBullets(digest, content, base, m.end).1
    ensures var e := ProjectOf(digest, content, base, m);
      e.1 == bregs + [(e.0.id, Span(base + m.start, base + EntryEnd(content, m.end)))]
  {
    ParseProps.ProjectOfParts(digest, content, base, m, EntryBullets(digest, content, base, m.end).0, bregs,
                          Find(content, ListEnd, m.end));
  }

  lemma {:induction false} ProjectsUpToSelect(digest: Digest, text: string, content: string, base: nat,
                                              lead: string, ms: seq<Match>, n: nat)
    requires n <= |ms| && Occurs(text, content, base) && Shapes(content, ms, lead)
    ensures AllEntries(text, ProjectsUpTo(digest, content, base, ms, n).1, lead)
    decreases n
  {
    if n > 0 {
      ProjectsUpToSelect(digest, text, content, base, lead, ms, n - 1);
      ProjectSelect(digest, text, content, base, lead, ms[n - 1]);
      AllEntriesConcat(text, ProjectsUpTo(digest, content, base, ms, n - 1).1, ProjectOf(digest, content, base, ms[n - 1]).1, lead);
    }
  }

  lemma CategorySpan(digest: Digest, base: nat, m: Match)
    ensures CategoryOf(digest, base, m).1.1 == Span(base + m.start, base + m.end)
  {
  }

  lemma {:induction false} CategoriesUpToSelect(digest: Digest, text: string, content: string, base: nat,
                                                lead: string, ms: seq<Match>, n: nat)
    requires n <= |ms| && Occurs(text, content, base) && Shapes(content, ms, lead)
    ensures AllMatchSpans(text, CategoriesUpTo(digest, base, ms, n).1, lead)
    decreases n
  {
    if n > 0 {
      var m := ms[n - 1];
      CategoriesUpToSelect(digest, text, content, base, lead, ms, n - 1);
      CategorySpan(digest, base, m);
      MatchSpanIn(text, content, base, lead, m);
      AllMatchSpansSnoc(text, CategoriesUpTo(digest, base, ms, n - 1).1, CategoryOf(digest, base, m).1, lead);
    }
  }

  lemma SchoolSpan(digest: Digest, base: nat, m: Match)
    ensures SchoolOf(digest, base, m).1.1 == Span(base + m.start, base + m.end)
  {
  }

  lemma {:induction false} SchoolsUpToSelect(digest: Digest, text: string, content: string, base: nat,
                                             lead: string, ms: seq<Match>, n: nat)
    requires n <= |ms| && Occurs(text, content, base) && Shapes(content, ms, lead)
    ensures AllMatchSpans(text, SchoolsUpTo(digest, base, ms, n).1, lead)
    decreases n
  {
    if n > 0 {
      var m := ms[n - 1];
      SchoolsUpToSelect(digest, text, content, base, lead, ms, n - 1);
      SchoolSpan(digest, base, m);
      MatchSpanIn(text, content, base, lead, m);
      AllMatchSpansSnoc(text, SchoolsUpTo(digest, base, ms, n - 1).1, SchoolOf(digest, base, m).1, lead);
    }
  }

  // ---------------------------------------------------------------------------
  // Sections and the whole parse
  // ---------------------------------------------------------------------------

  lemma ExperienceSelect(digest: Digest, text: string, content: string, base: nat)
    requires Occurs(text, content, base)
    ensures var ms := FindIter(Subheading, content, 0);
      AllSelect(text, JobsUpTo(digest, content, base, ms, |ms|).1)
  {
    var ms := FindIter(Subheading, content, 0);
    FindIterShapes(Subheading, content);
    JobsUpToSelect(digest, text, content, base, Lead(Subheading), ms, |ms|);
  }

  lemma ProjectsSelect(digest: Digest, text: string, content: string, base: nat)
    requires Occurs(text, content, base)
    ensures var ms := FindIter(ProjectHeading, content, 0);
      AllSelect(text, ProjectsUpTo(digest, content, base, ms, |ms|).1)
  {
    var ms := FindIter(ProjectHeading, content, 0);
    FindIterShapes(ProjectHeading, content);
    ProjectsUpToSelect(digest, text, content, base, Lead(ProjectHeading), ms, |ms|);
  }

  lemma SkillsSelect(digest: Digest, text: string, content: string, base: nat)
    requires Occurs(text, content, base)
    ensures var ms := FindIter(SkillLine, content, 0);
      AllSelect(text, CategoriesUpTo(digest, base, ms, |ms|).1)
  {
    var ms := FindIter(SkillLine, content, 0);
    FindIterShapes(SkillLine, content);
    CategoriesUpToSelect(digest, text, content, base, Lead(SkillLine), ms, |ms|);
  }

  lemma EducationSelect(digest: Digest, text: string, content: string, base: nat)
    requires Occurs(text, content, base)
    ensures var ms := FindIter(Subheading, content, 0);
      AllSelect(text, SchoolsUpTo(digest, base, ms, |ms|).1)
  {
    var ms := FindIter(Subheading, content, 0);
    FindIterShapes(Subheading, content);
    SchoolsUpToSelect(digest, text, content, base, Lead(Subheading), ms, |ms|);
  }

  /** Every span a section registers selects a bullet, an entry or a line of
      the text, whatever the section's kind. */
  lemma SectionSelect(digest: Digest, text: string, name: string, content: string, base: nat)
    requires Occurs(text, content, base)
    ensures AllSelect(text, SectionOf(digest, name, content, base).1)
  {
    match KindOf(name)
    case ExperienceKind => ExperienceSelect(digest, text, content, base);
    case ProjectsKind => ProjectsSelect(digest, text, content, base);
    case SkillsKind => SkillsSelect(digest, text, content, base);
    case EducationKind => EducationSelect(digest, text, content, base);
    case GenericKind =>
  }

  lemma SectionStepSelect(digest: Digest, text: string, hs: seq<Match>, n: nat)
    requires 0 < n <= |hs| && hs[n - 1].start <= |text|
    requires AllSelect(text, SectionsUpTo(digest, text, hs, n - 1).1)
    ensures AllSelect(text, SectionsUpTo(digest, text, hs, n).1)
  {
    var h := hs[n - 1];
    var c := SectionContent(text, hs, n - 1);
    PySliceAt(text, h.start, SectionEnd(text, hs, n - 1));
    SectionSelect(digest, text, G(h, 0), c, h.start);
    AllSelectConcat(text, SectionsUpTo(digest, text, hs, n - 1).1, SectionOf(digest, G(h, 0), c, h.start).1);
  }

  lemma {:induction false} SectionsUpToSelect(digest: Digest, text: string, hs: seq<Match>, n: nat)
    requires n <= |hs| && ParseProps.MatchesIn(hs, |text|)
    ensures AllSelect(text, SectionsUpTo(digest, text, hs, n).1)
    decreases n
  {
    if n > 0 {
      SectionsUpToSelect(digest, text, hs, n - 1);
      SectionStepSelect(digest, text, hs, n);
    }
  }

  /** Registering spans that all select something keeps every span of the
      map selecting something. */
  lemma {:induction false} RegisterSelects(text: string, m: map<string, Span>, regs: seq<Reg>)
    requires forall id :: id in m ==> Selects(text, m[id])
    requires AllSelect(text, regs)
    ensures forall id :: id in Register(m, regs) ==> Selects(text, Register(m, regs)[id])
    decreases |regs|
  {
    if regs != [] {
      var n := |regs| - 1;
      assert AllSelect(text, regs[..n]) by {
        forall k | 0 <= k < n ensures Selects(text, regs[..n][k].1) {
          assert regs[..n][k] == regs[k];
        }
      }
      RegisterSelects(text, m, regs[..n]);
    }
  }

  /** Every span the parse records, in the order written and in the final id
      map, selects a bullet (one whole `\resumeItem{…}` match), an experience,
      education or project entry (from its heading), or a skill line. */
  lemma ParseSpansSelect(digest: Digest, text: string)
    ensures AllSelect(text, Sections(digest, text).1)
    ensures var ids := Parse(digest, text).1;
      forall id :: id in ids ==> Selects(text, ids[id])
  {
    var hs := Headers(text);
    ParseProps.FindIterIn(SectionHeader, text, 0);
    SectionsUpToSelect(digest, text, hs, |hs|);
    RegisterSelects(text, map[], Sections(digest, text).1);
  }
}
