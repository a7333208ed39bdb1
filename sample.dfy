/** The sample résumé of `test_parser` and what `parse()` makes of it: two
    sections (an experience section with one job and its two bullets, and a
    skills section with two categories), the preamble and the document class,
    and the five writes into the id map at their exact offsets.

    The text is put together from its lines so that every fact about it can be
    read off a short piece: the proof locates each piece in the text, records
    where the backslashes are, and from there works out every match, search
    and `find` the parser performs on it. */
module Sample {
  import opened PyStr
  import opened Regex
  import opened ResumeTree
  import opened ParseSpec
  import opened Wrappers
  import IdEdit
  import ParseProps

  // ---------------------------------------------------------------------------
  // The sample text
  // ---------------------------------------------------------------------------

  /** The lines of a résumé, each a leading macro name and its arguments. */
  function DocClassDecl(w: string): string {
    "\\documentclass" + ("{" + w + "}")
  }

  function SectionLine(name: string): string {
    "\\section" + ("{" + name + "}")
  }

  function HeadingLine(a: string, b: string, c: string, d: string): string {
    "\\resumeSubheading" + (("{" + a + "}") + (("{" + b + "}") + (("{" + c + "}") + ("{" + d + "}"))))
  }

  function ItemLine(text: string): string {
    "\\resumeItem{" + (text + "}")
  }

  function SkillsLine(name: string, items: string): string {
    "\\textbf" + (("{" + name + "}") + ("{:" + " " + items + "}"))
  }

  const DocClassLine: string := DocClassDecl("article")
  const WorkHeader: string := SectionLine("Work Experience")
  const JobHeading: string := HeadingLine("Data Engineer", "TekLink International", "Jan 2024", "Remote")
  const FirstItem: string := ItemLine("Built data pipelines")
  const SecondItem: string := ItemLine("Deployed ML models")
  const SkillsHeader: string := SectionLine("Skills")
  const FirstSkills: string := SkillsLine("Programming", "Python, JavaScript, Java")
  const SecondSkills: string := SkillsLine("Cloud", "AWS, GCP, Azure")
  const Indent: string := "\n    "

  /** Everything before `\begin{document}`. */
  const Preamble: string := "\n" + DocClassLine + "\n"
  const Head: string := Preamble + BeginDocument + "\n\n"
  /** The bullet list of the job, from its list start up to its list end. */
  const BulletList: string := ListStart + Indent + FirstItem + Indent + SecondItem + "\n"
  /** The text of the experience section: from its header up to the next one. */
  const WorkText: string := WorkHeader + "\n" + JobHeading + "\n" + BulletList + ListEnd + "\n\n"
  /** The text of the skills section: from its header up to `\end{document}`. */
  const SkillsText: string := SkillsHeader + "\n" + FirstSkills + "\n" + SecondSkills + "\n\n"
  const Tail: string := EndDocument + "\n"

  /** The raw string `test_parser` parses, which begins with a line break. */
  const SampleText: string := Head + WorkText + SkillsText + Tail

  // ---------------------------------------------------------------------------
  // Pieces of a text
  // ---------------------------------------------------------------------------

  lemma OccursSelf(s: string)
    ensures Occurs(s, s, 0)
  {
  }

  /** An occurrence of `a + b` is an occurrence of `a` followed by one of `b`. */
  lemma OccursSplit(s: string, j: nat, a: string, b: string)
    requires Occurs(s, a + b, j)
    ensures Occurs(s, a, j) && Occurs(s, b, j + |a|)
  {
    SliceOfSlice(s, j, j + |a + b|, 0, |a|);
    SliceOfSlice(s, j, j + |a + b|, |a|, |a + b|);
    assert (a + b)[..|a|] == a;
    assert (a + b)[|a|..] == b;
  }

  // ---------------------------------------------------------------------------
  // Where a pattern that starts with a backslash cannot occur
  // ---------------------------------------------------------------------------

  /** Every backslash of `s` in `[lo, hi)` is at one of the indices `qs`. */
  predicate Marks(s: string, lo: nat, hi: nat, qs: set<int>) {
    forall j :: lo <= j < hi && j < |s| && s[j] == '\\' ==> j in qs
  }

  /** A piece without a backslash. */
  lemma PlainMarks(s: string, w: string, at: nat)
    requires Occurs(s, w, at) && '\\' !in w
    ensures Marks(s, at, at + |w|, {})
  {
    forall j | at <= j < at + |w| ensures s[j] != '\\' {
      OccursChar(s, w, at, j - at);
    }
  }

  /** A piece whose only backslash is its first character. */
  lemma CommandMarks(s: string, w: string, at: nat)
    requires Occurs(s, w, at) && |w| > 0 && '\\' !in w[1..]
    ensures Marks(s, at, at + |w|, {at})
  {
    forall j | at < j < at + |w| ensures s[j] != '\\' {
      OccursChar(s, w, at, j - at);
      assert w[j - at] == w[1..][j - at - 1];
    }
  }

  /** The backslashes of a piece, moved to where the piece sits in the text. */
  lemma MarksLift(s: string, c: string, j: nat, qs: set<int>, qs': set<int>)
    requires Occurs(s, c, j) && Marks(c, 0, |c|, qs)
    requires forall q :: q in qs ==> q + j in qs'
    ensures Marks(s, j, j + |c|, qs')
  {
    forall i | j <= i < j + |c| && s[i] == '\\' ensures i in qs' {
      OccursChar(s, c, j, i - j);
    }
  }

  /** `pat` occurs nowhere in `[lo, hi)`. */
  predicate Absent(s: string, pat: string, lo: nat, hi: nat) {
    forall j :: lo <= j < hi ==> !Occurs(s, pat, j)
  }

  /** A pattern that starts with a backslash occurs only at backslashes. */
  lemma MarksAbsent(s: string, pat: string, lo: nat, hi: nat, qs: set<int>)
    requires |pat| > 0 && pat[0] == '\\' && Marks(s, lo, hi, qs)
    requires forall q :: q in qs && lo <= q < hi ==> !Occurs(s, pat, q)
    ensures Absent(s, pat, lo, hi)
  {
    forall j | lo <= j < hi && Occurs(s, pat, j) ensures false {
      OccursChar(s, pat, j, 0);
    }
  }

  /** A piece that differs from `pat` at offset `t` is not an occurrence of it. */
  lemma Mismatch(s: string, w: string, q: nat, pat: string, t: nat)
    requires Occurs(s, w, q) && t < |w| && t < |pat| && w[t] != pat[t]
    ensures !Occurs(s, pat, q)
  {
    OccursChar(s, w, q, t);
    if Occurs(s, pat, q) {
      OccursChar(s, pat, q, t);
    }
  }

  /** Where a pattern's leading literal is absent, the pattern matches nowhere. */
  lemma AbsentNoMatch(p: Pattern, s: string, lo: nat, hi: nat)
    requires Absent(s, Lead(p), lo, hi)
    ensures NoMatchIn(p, s, lo, hi)
  {
    forall j | lo <= j < hi ensures MatchAt(p, s, j).None? {
      MatchAtShape(p, s, j);
    }
  }

  // ---------------------------------------------------------------------------
  // find, search and finditer from the facts above
  // ---------------------------------------------------------------------------

  lemma FindFirst(s: string, pat: string, from: nat, k: nat)
    requires from <= k && Absent(s, pat, from, k) && Occurs(s, pat, k)
    ensures Find(s, pat, from) == k
  {
    FindSpec(s, pat, from);
  }

  lemma {:induction false} SearchFirst(p: Pattern, s: string, from: nat, k: nat)
    requires from <= k && NoMatchIn(p, s, from, k) && MatchAt(p, s, k).Some?
    ensures Search(p, s, from) == MatchAt(p, s, k)
    decreases k - from
  {
    if from < k {
      SearchFirst(p, s, from + 1, k);
    }
  }

  lemma {:induction false} SearchNothing(p: Pattern, s: string, from: nat)
    requires NoMatchIn(p, s, from, |s|)
    ensures Search(p, s, from) == None
    decreases |s| - from
  {
    if from < |s| {
      SearchNothing(p, s, from + 1);
    } else if from == |s| {
      assert Search(p, s, from + 1) == None;
    }
  }

  // ---------------------------------------------------------------------------
  // Single matches
  // ---------------------------------------------------------------------------

  /** A brace argument `{w}` at `p`, character by character. */
  predicate ArgAt(s: string, p: nat, w: string) {
    p + |w| + 1 < |s| && s[p] == '{' && s[p + 1..p + |w| + 1] == w && s[p + |w| + 1] == '}'
  }

  lemma ArgAtOccurs(s: string, p: nat, w: string)
    requires Occurs(s, "{" + w + "}", p)
    ensures ArgAt(s, p, w)
  {
    OccursSplit(s, p, "{" + w, "}");
    OccursSplit(s, p, "{", w);
    OccursChar(s, "{", p, 0);
    OccursChar(s, "}", p + 1 + |w|, 0);
  }

  /** The closing brace of an argument without `}` is the first one after it opens. */
  lemma ArgClose(s: string, p: nat, w: string)
    requires ArgAt(s, p, w) && '}' !in w
    ensures Find(s, "}", p + 1) == p + |w| + 1
  {
    forall i | p + 1 <= i < p + 1 + |w| ensures s[i] != '}' {
      assert s[i] == s[p + 1..p + |w| + 1][i - p - 1];
    }
    FindCharAt(s, '}', p + 1, p + 1 + |w|);
  }

  /** A brace argument `{w}` at `p` is the first of the arguments read there. */
  lemma BraceArgFirst(s: string, p: nat, w: string, n: nat)
    requires ArgAt(s, p, w) && |w| > 0 && '}' !in w && n > 0
    ensures var rest := BraceArgs(s, p + |w| + 2, n - 1);
      rest.Some? ==> BraceArgs(s, p, n) == Some(([w] + rest.value.0, rest.value.1))
  {
    ArgClose(s, p, w);
    var k := p + |w| + 1;
    var rest := BraceArgs(s, k + 1, n - 1);
    if rest.Some? {
      assert BraceArgs(s, p, n) == Some(([s[p + 1..k]] + rest.value.0, rest.value.1));
    }
  }

  lemma BraceArgOnly(s: string, p: nat, w: string)
    requires ArgAt(s, p, w) && |w| > 0 && '}' !in w
    ensures BraceArgs(s, p, 1) == Some(([w], p + |w| + 2))
  {
    BraceArgFirst(s, p, w, 1);
    assert BraceArgs(s, p + |w| + 2, 0) == Some(([], p + |w| + 2));
    assert [w] + [] == [w];
  }

  lemma BraceArgsCons(s: string, p: nat, w: string, rest: seq<string>, q: nat, m: nat, n: nat)
    requires ArgAt(s, p, w) && |w| > 0 && '}' !in w && m == |rest| && n == m + 1
    requires BraceArgs(s, p + |w| + 2, m) == Some((rest, q))
    ensures BraceArgs(s, p, n) == Some(([w] + rest, q))
  {
    BraceArgFirst(s, p, w, n);
  }

  lemma DocumentClassMatch(s: string, i: nat, w: string)
    requires Occurs(s, DocClassDecl(w), i) && |w| > 0 && '}' !in w
    ensures DocumentClassAt(s, i) == Some(Match(i, i + |w| + 16, [w]))
  {
    OccursSplit(s, i, "\\documentclass", "{" + w + "}");
    ArgAtOccurs(s, i + 14, w);
    BraceArgOnly(s, i + 14, w);
  }

  lemma SectionMatch(s: string, i: nat, w: string)
    requires Occurs(s, SectionLine(w), i) && |w| > 0 && '}' !in w
    ensures SectionAt(s, i) == Some(Match(i, i + |w| + 10, [w]))
  {
    OccursSplit(s, i, "\\section", "{" + w + "}");
    ArgAtOccurs(s, i + 8, w);
    BraceArgOnly(s, i + 8, w);
  }

  /** Four brace arguments one after the other. */
  predicate FourArgs(s: string, p: nat, a: string, b: string, c: string, d: string) {
    && ArgAt(s, p, a) && ArgAt(s, p + |a| + 2, b)
    && ArgAt(s, p + |a| + 2 + |b| + 2, c) && ArgAt(s, p + |a| + 2 + |b| + 2 + |c| + 2, d)
  }

  /** An argument `{w}` at `p` followed by `rest`. */
  lemma ArgThen(s: string, p: nat, w: string, rest: string)
    requires Occurs(s, ("{" + w + "}") + rest, p)
    ensures ArgAt(s, p, w) && Occurs(s, rest, p + |w| + 2)
  {
    OccursSplit(s, p, "{" + w + "}", rest);
    ArgAtOccurs(s, p, w);
  }

  lemma TwoArgsOccurs(s: string, p: nat, c: string, d: string)
    requires Occurs(s, ("{" + c + "}") + ("{" + d + "}"), p)
    ensures ArgAt(s, p, c) && ArgAt(s, p + |c| + 2, d)
  {
    ArgThen(s, p, c, "{" + d + "}");
    ArgAtOccurs(s, p + |c| + 2, d);
  }

  lemma ThreeArgsOccurs(s: string, p: nat, b: string, c: string, d: string)
    requires Occurs(s, ("{" + b + "}") + (("{" + c + "}") + ("{" + d + "}")), p)
    ensures ArgAt(s, p, b) && ArgAt(s, p + |b| + 2, c) && ArgAt(s, p + |b| + 2 + |c| + 2, d)
  {
    ArgThen(s, p, b, ("{" + c + "}") + ("{" + d + "}"));
    TwoArgsOccurs(s, p + |b| + 2, c, d);
  }

  lemma FourArgsOccurs(s: string, p: nat, a: string, b: string, c: string, d: string)
    requires Occurs(s, ("{" + a + "}") + (("{" + b + "}") + (("{" + c + "}") + ("{" + d + "}"))), p)
    ensures FourArgs(s, p, a, b, c, d)
  {
    ArgThen(s, p, a, ("{" + b + "}") + (("{" + c + "}") + ("{" + d + "}")));
    ThreeArgsOccurs(s, p + |a| + 2, b, c, d);
  }

  /** Brace arguments one after the other are read back in order: two, three
      and four of them. */
  lemma ArgsTwo(s: string, p: nat, c: string, d: string)
    requires ArgAt(s, p, c) && ArgAt(s, p + |c| + 2, d)
    requires |c| > 0 && '}' !in c && |d| > 0 && '}' !in d
    ensures BraceArgs(s, p, 2) == Some(([c, d], p + |c| + 2 + |d| + 2))
  {
    BraceArgOnly(s, p + |c| + 2, d);
    BraceArgsCons(s, p, c, [d], p + |c| + 2 + |d| + 2, 1, 2);
    assert [c] + [d] == [c, d];
  }

  lemma ArgsThree(s: string, p: nat, b: string, c: string, d: string)
    requires ArgAt(s, p, b) && ArgAt(s, p + |b| + 2, c) && ArgAt(s, p + |b| + 2 + |c| + 2, d)
    requires |b| > 0 && '}' !in b && |c| > 0 && '}' !in c && |d| > 0 && '}' !in d
    ensures BraceArgs(s, p, 3) == Some(([b, c, d], p + |b| + 2 + |c| + 2 + |d| + 2))
  {
    ArgsTwo(s, p + |b| + 2, c, d);
    BraceArgsCons(s, p, b, [c, d], p + |b| + 2 + |c| + 2 + |d| + 2, 2, 3);
    assert [b] + [c, d] == [b, c, d];
  }

  lemma FourArgsRead(s: string, p: nat, a: string, b: string, c: string, d: string)
    requires FourArgs(s, p, a, b, c, d)
    requires |a| > 0 && '}' !in a && |b| > 0 && '}' !in b
    requires |c| > 0 && '}' !in c && |d| > 0 && '}' !in d
    ensures BraceArgs(s, p, 4) == Some(([a, b, c, d], p + |a| + 2 + |b| + 2 + |c| + 2 + |d| + 2))
  {
    ArgsThree(s, p + |a| + 2, b, c, d);
    BraceArgsCons(s, p, a, [b, c, d], p + |a| + 2 + |b| + 2 + |c| + 2 + |d| + 2, 3, 4);
    assert [a] + [b, c, d] == [a, b, c, d];
  }

  /** Nothing is skipped before an opening brace. */
  lemma NoSkipAtBrace(s: string, j: nat)
    requires j < |s| && s[j] == '{'
    ensures SkipSpace(s, j) == j
  {
    assert !IsSpace('{');
  }

  /** A `\resumeSubheading` followed directly by its four arguments. */
  lemma SubheadingRead(s: string, i: nat, a: string, b: string, c: string, d: string)
    requires Occurs(s, "\\resumeSubheading", i) && FourArgs(s, i + 17, a, b, c, d)
    requires |a| > 0 && '}' !in a && |b| > 0 && '}' !in b
    requires |c| > 0 && '}' !in c && |d| > 0 && '}' !in d
    ensures SubheadingAt(s, i) == Some(Match(i, i + 17 + |a| + 2 + |b| + 2 + |c| + 2 + |d| + 2, [a, b, c, d]))
  {
    NoSkipAtBrace(s, i + 17);
    FourArgsRead(s, i + 17, a, b, c, d);
  }

  lemma SubheadingMatch(s: string, i: nat, a: string, b: string, c: string, d: string)
    requires Occurs(s, HeadingLine(a, b, c, d), i)
    requires |a| > 0 && |b| > 0 && |c| > 0 && |d| > 0
    requires '}' !in a && '}' !in b && '}' !in c && '}' !in d
    ensures SubheadingAt(s, i) == Some(Match(i, i + |a| + |b| + |c| + |d| + 25, [a, b, c, d]))
  {
    var args := ("{" + a + "}") + (("{" + b + "}") + (("{" + c + "}") + ("{" + d + "}")));
    OccursSplit(s, i, "\\resumeSubheading", args);
    FourArgsOccurs(s, i + 17, a, b, c, d);
    SubheadingRead(s, i, a, b, c, d);
  }

  lemma ItemMatch(s: string, i: nat, w: string)
    requires Occurs(s, ItemLine(w), i) && '{' !in w && '}' !in w
    ensures ResumeItemAt(s, i) == Some(Match(i, i + |w| + 13, [w]))
  {
    OccursSplit(s, i, "\\resumeItem{", w + "}");
    OccursSplit(s, i + 12, w, "}");
    OccursChar(s, "}", i + 12 + |w|, 0);
    forall j | i + 12 <= j < i + 12 + |w| ensures !IsBrace(s[j]) {
      OccursChar(s, w, i + 12, j - i - 12);
    }
    IdEdit.ItemArgEndPlain(s, i + 12, i + 12 + |w|);
  }

  /** The items part `{: items}` of a skill line whose label ends at `e`. */
  lemma SkillItems(s: string, e: nat, items: string)
    requires Occurs(s, "{:" + " " + items + "}", e)
    requires |items| > 0 && '}' !in items && !IsSpace(items[0])
    ensures e + 2 < e + 3 + |items| < |s|
    ensures SkillItemsEnd(s, e) == Some(e + 3 + |items|)
    ensures SkillItemsGroup(s, e + 2, e + 3 + |items|) == items
  {
    var k := e + 3 + |items|;
    OccursSplit(s, e, "{:" + " " + items, "}");
    OccursSplit(s, e, "{:" + " ", items);
    OccursSplit(s, e, "{:", " ");
    OccursChar(s, " ", e + 2, 0);
    OccursChar(s, items, e + 3, 0);
    OccursChar(s, "}", k, 0);
    forall j | e + 2 <= j < k ensures s[j] != '}' {
      if j > e + 2 {
        OccursChar(s, items, e + 3, j - e - 3);
      }
    }
    FindCharAt(s, '}', e + 2, k);
    assert SkipSpace(s, e + 3) == e + 3;
    assert SkipSpace(s, e + 2) == e + 3;
  }

  /** `\textbf`, a label argument ending at `e`, then the items part. */
  lemma SkillRead(s: string, i: nat, name: string, e: nat, items: string)
    requires Occurs(s, "\\textbf", i) && BraceArgs(s, i + 7, 1) == Some(([name], e))
    requires SkillItemsEnd(s, e) == Some(e + 3 + |items|) && e + 3 + |items| < |s|
    requires SkillItemsGroup(s, e + 2, e + 3 + |items|) == items
    ensures SkillLineAt(s, i) == Some(Match(i, e + 4 + |items|, [name, items]))
  {
    assert [name] + [items] == [name, items];
  }

  lemma SkillTail(s: string, i: nat, name: string, e: nat, items: string)
    requires Occurs(s, "\\textbf", i) && BraceArgs(s, i + 7, 1) == Some(([name], e))
    requires Occurs(s, "{:" + " " + items + "}", e)
    requires |items| > 0 && '}' !in items && !IsSpace(items[0])
    ensures SkillLineAt(s, i) == Some(Match(i, e + 4 + |items|, [name, items]))
  {
    SkillItems(s, e, items);
    SkillRead(s, i, name, e, items);
  }

  lemma SkillMatch(s: string, i: nat, name: string, items: string)
    requires Occurs(s, SkillsLine(name, items), i)
    requires |name| > 0 && '}' !in name && |items| > 0 && '}' !in items && !IsSpace(items[0])
    ensures SkillLineAt(s, i) == Some(Match(i, i + |name| + |items| + 13, [name, items]))
  {
    OccursSplit(s, i, "\\textbf", ("{" + name + "}") + ("{:" + " " + items + "}"));
    ArgThen(s, i + 7, name, "{:" + " " + items + "}");
    BraceArgOnly(s, i + 7, name);
    SkillTail(s, i, name, i + |name| + 9, items);
  }

  // ---------------------------------------------------------------------------
  // Backslashes of the lines
  // ---------------------------------------------------------------------------

  /** A line whose only backslash starts its leading macro name. */
  lemma LineMarks(s: string, lead: string, rest: string, at: nat)
    requires Occurs(s, lead + rest, at) && |lead| > 0 && '\\' !in lead[1..] && '\\' !in rest
    ensures Marks(s, at, at + |lead| + |rest|, {at})
  {
    OccursSplit(s, at, lead, rest);
    CommandMarks(s, lead, at);
    PlainMarks(s, rest, at + |lead|);
  }

  lemma LeadTails()
    ensures '\\' !in "\\documentclass"[1..] && '\\' !in "\\section"[1..]
    ensures '\\' !in "\\resumeSubheading"[1..] && '\\' !in "\\resumeItem{"[1..]
    ensures '\\' !in "\\textbf"[1..]
  {
    LeadTail("\\documentclass");
    LeadTail("\\section");
    LeadTail("\\resumeSubheading");
    LeadTail("\\resumeItem{");
    LeadTail("\\textbf");
  }

  lemma MarkerTails()
    ensures '\\' !in ListStart[1..] && '\\' !in ListEnd[1..]
    ensures '\\' !in BeginDocument[1..] && '\\' !in EndDocument[1..]
  {
    LeadTail(ListStart);
    LeadTail(ListEnd);
    LeadTail(BeginDocument);
    LeadTail(EndDocument);
  }

  /** The rest of a macro name after its backslash: letters and at most a `{`. */
  lemma LeadTail(lead: string)
    requires |lead| > 0 && forall k :: 1 <= k < |lead| ==> lead[k] in "abcdefghijklmnopqrstuvwxyzILSE{}"
    ensures '\\' !in lead[1..]
  {
    forall k | 0 <= k < |lead| - 1 ensures lead[1..][k] != '\\' {
      assert lead[1..][k] == lead[k + 1];
    }
  }

  lemma SectionLineMarks(s: string, w: string, at: nat)
    requires Occurs(s, SectionLine(w), at) && '\\' !in w
    ensures Marks(s, at, at + |w| + 10, {at})
  {
    LeadTails();
    LineMarks(s, "\\section", "{" + w + "}", at);
  }

  lemma ItemLineMarks(s: string, w: string, at: nat)
    requires Occurs(s, ItemLine(w), at) && '\\' !in w
    ensures Marks(s, at, at + |w| + 13, {at})
  {
    LeadTails();
    LineMarks(s, "\\resumeItem{", w + "}", at);
  }

  lemma SkillsLineMarks(s: string, name: string, items: string, at: nat)
    requires Occurs(s, SkillsLine(name, items), at) && '\\' !in name && '\\' !in items
    ensures Marks(s, at, at + |name| + |items| + 13, {at})
  {
    LeadTails();
    LineMarks(s, "\\textbf", ("{" + name + "}") + ("{:" + " " + items + "}"), at);
  }

  lemma HeadingLineMarks(s: string, a: string, b: string, c: string, d: string, at: nat)
    requires Occurs(s, HeadingLine(a, b, c, d), at)
    requires '\\' !in a && '\\' !in b && '\\' !in c && '\\' !in d
    ensures Marks(s, at, at + |a| + |b| + |c| + |d| + 25, {at})
  {
    LeadTails();
    LineMarks(s, "\\resumeSubheading", ("{" + a + "}") + (("{" + b + "}") + (("{" + c + "}") + ("{" + d + "}"))), at);
  }

  lemma DocClassMarks(s: string, w: string, at: nat)
    requires Occurs(s, DocClassDecl(w), at) && '\\' !in w
    ensures Marks(s, at, at + |w| + 16, {at})
  {
    LeadTails();
    LineMarks(s, "\\documentclass", "{" + w + "}", at);
  }

  // ---------------------------------------------------------------------------
  // Texts put together from pieces
  // ---------------------------------------------------------------------------

  lemma Pieces4(s: string, a: string, b: string, c: string, d: string)
    requires s == a + b + c + d
    ensures Occurs(s, a, 0) && Occurs(s, b, |a|) && Occurs(s, c, |a| + |b|)
    ensures Occurs(s, d, |a| + |b| + |c|)
  {
    OccursSelf(s);
    OccursSplit(s, 0, a + b + c, d);
    OccursSplit(s, 0, a + b, c);
    OccursSplit(s, 0, a, b);
  }

  lemma Pieces6(s: string, a: string, b: string, c: string, d: string, e: string, f: string)
    requires s == a + b + c + d + e + f
    ensures Occurs(s, a, 0) && Occurs(s, b, |a|) && Occurs(s, c, |a| + |b|)
    ensures Occurs(s, d, |a| + |b| + |c|) && Occurs(s, e, |a| + |b| + |c| + |d|)
    ensures Occurs(s, f, |a| + |b| + |c| + |d| + |e|)
  {
    OccursSelf(s);
    OccursSplit(s, 0, a + b + c + d + e, f);
    OccursSplit(s, 0, a + b + c + d, e);
    Pieces4(a + b + c + d, a, b, c, d);
    OccursCompose(s, 0, a + b + c + d, 0, a);
    OccursCompose(s, 0, a + b + c + d, |a|, b);
    OccursCompose(s, 0, a + b + c + d, |a| + |b|, c);
    OccursCompose(s, 0, a + b + c + d, |a| + |b| + |c|, d);
  }

  lemma Pieces5(s: string, a: string, b: string, c: string, d: string, e: string)
    requires s == a + b + c + d + e
    ensures Occurs(s, a, 0) && Occurs(s, b, |a|) && Occurs(s, c, |a| + |b|)
    ensures Occurs(s, d, |a| + |b| + |c|) && Occurs(s, e, |a| + |b| + |c| + |d|)
  {
    OccursSelf(s);
    OccursSplit(s, 0, a + b + c + d, e);
    Pieces4(a + b + c + d, a, b, c, d);
    OccursCompose(s, 0, a + b + c + d, 0, a);
    OccursCompose(s, 0, a + b + c + d, |a|, b);
    OccursCompose(s, 0, a + b + c + d, |a| + |b|, c);
    OccursCompose(s, 0, a + b + c + d, |a| + |b| + |c|, d);
  }

  lemma Pieces7(s: string, a: string, b: string, c: string, d: string, e: string, f: string, g: string)
    requires s == a + b + c + d + e + f + g
    ensures Occurs(s, a, 0) && Occurs(s, b, |a|) && Occurs(s, c, |a| + |b|)
    ensures Occurs(s, d, |a| + |b| + |c|) && Occurs(s, e, |a| + |b| + |c| + |d|)
    ensures Occurs(s, f, |a| + |b| + |c| + |d| + |e|)
    ensures Occurs(s, g, |a| + |b| + |c| + |d| + |e| + |f|)
  {
    OccursSelf(s);
    OccursSplit(s, 0, a + b + c + d + e + f, g);
    OccursSplit(s, 0, a + b + c + d + e, f);
    Pieces5(a + b + c + d + e, a, b, c, d, e);
    OccursCompose(s, 0, a + b + c + d + e, 0, a);
    OccursCompose(s, 0, a + b + c + d + e, |a|, b);
    OccursCompose(s, 0, a + b + c + d + e, |a| + |b|, c);
    OccursCompose(s, 0, a + b + c + d + e, |a| + |b| + |c|, d);
    OccursCompose(s, 0, a + b + c + d + e, |a| + |b| + |c| + |d|, e);
  }

  // ---------------------------------------------------------------------------
  // The bullet list
  // ---------------------------------------------------------------------------

  /** Where the lines of the bullet list sit, and where its backslashes are. */
  predicate BulletShape(s: string) {
    && |s| == 95
    && Occurs(s, ListStart, 0) && Occurs(s, FirstItem, 25) && Occurs(s, SecondItem, 63)
    && Marks(s, 0, 95, {0, 25, 63})
  }

  lemma BulletListShape()
    ensures BulletShape(BulletList)
  {
    var s := BulletList;
    Pieces6(s, ListStart, Indent, FirstItem, Indent, SecondItem, "\n");
    MarkerTails();
    CommandMarks(s, ListStart, 0);
    PlainMarks(s, Indent, 20);
    ItemLineMarks(s, "Built data pipelines", 25);
    PlainMarks(s, Indent, 58);
    ItemLineMarks(s, "Deployed ML models", 63);
    PlainMarks(s, "\n", 94);
  }

  lemma FirstBulletFound(s: string)
    requires BulletShape(s)
    ensures Search(ResumeItem, s, 0) == Some(Match(25, 58, ["Built data pipelines"]))
  {
    Mismatch(s, ListStart, 0, Lead(ResumeItem), 11);
    MarksAbsent(s, Lead(ResumeItem), 0, 25, {0, 25, 63});
    AbsentNoMatch(ResumeItem, s, 0, 25);
    ItemMatch(s, 25, "Built data pipelines");
    SearchFirst(ResumeItem, s, 0, 25);
  }

  lemma SecondBulletFound(s: string)
    requires BulletShape(s)
    ensures Search(ResumeItem, s, 58) == Some(Match(63, 94, ["Deployed ML models"]))
  {
    MarksAbsent(s, Lead(ResumeItem), 58, 63, {0, 25, 63});
    AbsentNoMatch(ResumeItem, s, 58, 63);
    ItemMatch(s, 63, "Deployed ML models");
    SearchFirst(ResumeItem, s, 58, 63);
  }

  lemma NoThirdBullet(s: string)
    requires BulletShape(s)
    ensures Search(ResumeItem, s, 94) == None
  {
    MarksAbsent(s, Lead(ResumeItem), 94, 95, {0, 25, 63});
    AbsentNoMatch(ResumeItem, s, 94, 95);
    SearchNothing(ResumeItem, s, 94);
  }

  /** `finditer` finds the two bullets of the list, and nothing else. */
  lemma BulletMatches()
    ensures FindIter(ResumeItem, BulletList, 0)
         == [Match(25, 58, ["Built data pipelines"]), Match(63, 94, ["Deployed ML models"])]
  {
    var s := BulletList;
    BulletListShape();
    FirstBulletFound(s);
    SecondBulletFound(s);
    NoThirdBullet(s);
    FindIterStep(ResumeItem, s, 0);
    FindIterStep(ResumeItem, s, 58);
    FindIterStep(ResumeItem, s, 94);
  }

  // ---------------------------------------------------------------------------
  // The skills section
  // ---------------------------------------------------------------------------

  predicate SkillsShape(s: string) {
    && |s| == 101
    && Occurs(s, SkillsHeader, 0) && Occurs(s, FirstSkills, 17) && Occurs(s, SecondSkills, 66)
    && Marks(s, 0, 101, {0, 17, 66})
  }

  lemma SkillsTextShape()
    ensures SkillsShape(SkillsText)
  {
    var s := SkillsText;
    Pieces6(s, SkillsHeader, "\n", FirstSkills, "\n", SecondSkills, "\n\n");
    SectionLineMarks(s, "Skills", 0);
    PlainMarks(s, "\n", 16);
    SkillsLineMarks(s, "Programming", "Python, JavaScript, Java", 17);
    PlainMarks(s, "\n", 65);
    SkillsLineMarks(s, "Cloud", "AWS, GCP, Azure", 66);
    PlainMarks(s, "\n\n", 99);
  }

  lemma FirstSkillsFound(s: string)
    requires SkillsShape(s)
    ensures Search(SkillLine, s, 0) == Some(Match(17, 65, ["Programming", "Python, JavaScript, Java"]))
  {
    Mismatch(s, SkillsHeader, 0, Lead(SkillLine), 1);
    MarksAbsent(s, Lead(SkillLine), 0, 17, {0, 17, 66});
    AbsentNoMatch(SkillLine, s, 0, 17);
    SkillMatch(s, 17, "Programming", "Python, JavaScript, Java");
    SearchFirst(SkillLine, s, 0, 17);
  }

  lemma SecondSkillsFound(s: string)
    requires SkillsShape(s)
    ensures Search(SkillLine, s, 65) == Some(Match(66, 99, ["Cloud", "AWS, GCP, Azure"]))
  {
    MarksAbsent(s, Lead(SkillLine), 65, 66, {0, 17, 66});
    AbsentNoMatch(SkillLine, s, 65, 66);
    SkillMatch(s, 66, "Cloud", "AWS, GCP, Azure");
    SearchFirst(SkillLine, s, 65, 66);
  }

  lemma NoThirdSkills(s: string)
    requires SkillsShape(s)
    ensures Search(SkillLine, s, 99) == None
  {
    MarksAbsent(s, Lead(SkillLine), 99, 101, {0, 17, 66});
    AbsentNoMatch(SkillLine, s, 99, 101);
    SearchNothing(SkillLine, s, 99);
  }

  /** `finditer` finds the two skill lines of the section, and nothing else. */
  lemma SkillsMatches()
    ensures FindIter(SkillLine, SkillsText, 0)
         == [Match(17, 65, ["Programming", "Python, JavaScript, Java"]), Match(66, 99, ["Cloud", "AWS, GCP, Azure"])]
  {
    var s := SkillsText;
    SkillsTextShape();
    FirstSkillsFound(s);
    SecondSkillsFound(s);
    NoThirdSkills(s);
    FindIterStep(SkillLine, s, 0);
    FindIterStep(SkillLine, s, 65);
    FindIterStep(SkillLine, s, 99);
  }

  // ---------------------------------------------------------------------------
  // The experience section
  // ---------------------------------------------------------------------------

  const JobFields: seq<string> := ["Data Engineer", "TekLink International", "Jan 2024", "Remote"]

  predicate WorkShape(s: string) {
    && |s| == 215
    && Occurs(s, WorkHeader, 0) && Occurs(s, JobHeading, 26)
    && Occurs(s, ListStart, 100) && Occurs(s, FirstItem, 125) && Occurs(s, SecondItem, 163)
    && Occurs(s, ListEnd, 195)
    && Marks(s, 0, 215, {0, 26, 100, 125, 163, 195})
  }

  lemma WorkTextPlaces()
    ensures |WorkText| == 215
    ensures Occurs(WorkText, WorkHeader, 0) && Occurs(WorkText, "\n", 25)
    ensures Occurs(WorkText, JobHeading, 26) && Occurs(WorkText, "\n", 99)
    ensures Occurs(WorkText, BulletList, 100) && Occurs(WorkText, ListEnd, 195)
    ensures Occurs(WorkText, "\n\n", 213)
  {
    Pieces7(WorkText, WorkHeader, "\n", JobHeading, "\n", BulletList, ListEnd, "\n\n");
  }

  lemma WorkMarksFrom(s: string)
    requires |s| == 215
    requires Occurs(s, WorkHeader, 0) && Occurs(s, "\n", 25) && Occurs(s, JobHeading, 26)
    requires Occurs(s, "\n", 99) && Marks(s, 100, 195, {100, 125, 163})
    requires Occurs(s, ListEnd, 195) && Occurs(s, "\n\n", 213)
    ensures Marks(s, 0, 215, {0, 26, 100, 125, 163, 195})
  {
    MarkerTails();
    SectionLineMarks(s, "Work Experience", 0);
    PlainMarks(s, "\n", 25);
    HeadingLineMarks(s, "Data Engineer", "TekLink International", "Jan 2024", "Remote", 26);
    PlainMarks(s, "\n", 99);
    CommandMarks(s, ListEnd, 195);
    PlainMarks(s, "\n\n", 213);
  }

  lemma WorkTextShape()
    ensures WorkShape(WorkText)
  {
    var s := WorkText;
    WorkTextPlaces();
    BulletListShape();
    OccursCompose(s, 100, BulletList, 0, ListStart);
    OccursCompose(s, 100, BulletList, 25, FirstItem);
    OccursCompose(s, 100, BulletList, 63, SecondItem);
    MarksLift(s, BulletList, 100, {0, 25, 63}, {100, 125, 163});
    WorkMarksFrom(s);
  }

  lemma JobFound(s: string)
    requires WorkShape(s)
    ensures Search(Subheading, s, 0) == Some(Match(26, 99, JobFields))
  {
    Mismatch(s, WorkHeader, 0, Lead(Subheading), 1);
    MarksAbsent(s, Lead(Subheading), 0, 26, {0, 26, 100, 125, 163, 195});
    AbsentNoMatch(Subheading, s, 0, 26);
    SubheadingMatch(s, 26, "Data Engineer", "TekLink International", "Jan 2024", "Remote");
    SearchFirst(Subheading, s, 0, 26);
  }

  lemma NoSecondJob(s: string)
    requires WorkShape(s)
    ensures Search(Subheading, s, 99) == None
  {
    var pat := Lead(Subheading);
    Mismatch(s, ListStart, 100, pat, 7);
    Mismatch(s, FirstItem, 125, pat, 7);
    Mismatch(s, SecondItem, 163, pat, 7);
    Mismatch(s, ListEnd, 195, pat, 7);
    MarksAbsent(s, pat, 99, 215, {0, 26, 100, 125, 163, 195});
    AbsentNoMatch(Subheading, s, 99, 215);
    SearchNothing(Subheading, s, 99);
  }

  /** The job's list starts at 100 and ends at 195 of the section text. */
  lemma JobListFound(s: string)
    requires WorkShape(s)
    ensures Find(s, ListStart, 99) == 100
    ensures Find(s, ListEnd, 99) == 195
  {
    MarksAbsent(s, ListStart, 99, 100, {0, 26, 100, 125, 163, 195});
    FindFirst(s, ListStart, 99, 100);
    Mismatch(s, ListStart, 100, ListEnd, 15);
    Mismatch(s, FirstItem, 125, ListEnd, 11);
    Mismatch(s, SecondItem, 163, ListEnd, 11);
    MarksAbsent(s, ListEnd, 99, 195, {0, 26, 100, 125, 163, 195});
    FindFirst(s, ListEnd, 99, 195);
  }

  /** `finditer` finds the one job heading of the experience section. */
  lemma JobMatches()
    ensures FindIter(Subheading, WorkText, 0) == [Match(26, 99, JobFields)]
  {
    WorkTextShape();
    JobFound(WorkText);
    NoSecondJob(WorkText);
    FindIterStep(Subheading, WorkText, 0);
    FindIterStep(Subheading, WorkText, 99);
  }

  // ---------------------------------------------------------------------------
  // The whole text
  // ---------------------------------------------------------------------------

  const TextMarks: set<int> := {1, 25, 43, 69, 143, 168, 206, 238, 258, 275, 324, 359}

  /** Where the lines of the sample sit, and where its backslashes are. */
  predicate TextShape(s: string) {
    && |s| == 374
    && Occurs(s, DocClassLine, 1) && Occurs(s, BeginDocument, 25)
    && Occurs(s, WorkHeader, 43) && Occurs(s, JobHeading, 69) && Occurs(s, ListStart, 143)
    && Occurs(s, FirstItem, 168) && Occurs(s, SecondItem, 206) && Occurs(s, ListEnd, 238)
    && Occurs(s, SkillsHeader, 258) && Occurs(s, FirstSkills, 275) && Occurs(s, SecondSkills, 324)
    && Occurs(s, EndDocument, 359)
    && Marks(s, 0, 374, TextMarks)
  }

  lemma HeadPlaces()
    ensures |Head| == 43 && Preamble == Head[..25]
    ensures Occurs(Head, DocClassLine, 1) && Occurs(Head, BeginDocument, 25)
    ensures Marks(Head, 0, 43, {1, 25})
  {
    var s := Head;
    Pieces5(s, "\n", DocClassLine, "\n", BeginDocument, "\n\n");
    Pieces4(s, Preamble, BeginDocument, "\n\n", "");
    HeadMarksFrom(s);
  }

  lemma HeadMarksFrom(s: string)
    requires Occurs(s, "\n", 0) && Occurs(s, DocClassLine, 1) && Occurs(s, "\n", 24)
    requires Occurs(s, BeginDocument, 25) && Occurs(s, "\n\n", 41)
    ensures Marks(s, 0, 43, {1, 25})
  {
    MarkerTails();
    PlainMarks(s, "\n", 0);
    DocClassMarks(s, "article", 1);
    PlainMarks(s, "\n", 24);
    CommandMarks(s, BeginDocument, 25);
    PlainMarks(s, "\n\n", 41);
  }

  lemma TailPlaces()
    ensures |Tail| == 15 && Occurs(Tail, EndDocument, 0) && Marks(Tail, 0, 15, {0})
  {
    Pieces4(Tail, EndDocument, "\n", "", "");
    MarkerTails();
    CommandMarks(Tail, EndDocument, 0);
    PlainMarks(Tail, "\n", 14);
  }

  lemma SamplePlaces()
    ensures |SampleText| == 374
    ensures Occurs(SampleText, Head, 0) && Occurs(SampleText, WorkText, 43)
    ensures Occurs(SampleText, SkillsText, 258) && Occurs(SampleText, Tail, 359)
  {
    HeadPlaces();
    WorkTextPlaces();
    SkillsTextShape();
    TailPlaces();
    Pieces4(SampleText, Head, WorkText, SkillsText, Tail);
  }

  /** The lines of the whole text, from the lines of its parts. */
  lemma TextLinesFrom(s: string, head: string, work: string, skills: string, tail: string)
    requires Occurs(s, head, 0) && Occurs(s, work, 43) && Occurs(s, skills, 258) && Occurs(s, tail, 359)
    requires Occurs(head, DocClassLine, 1) && Occurs(head, BeginDocument, 25)
    requires WorkShape(work) && SkillsShape(skills) && Occurs(tail, EndDocument, 0)
    ensures Occurs(s, DocClassLine, 1) && Occurs(s, BeginDocument, 25)
    ensures Occurs(s, WorkHeader, 43) && Occurs(s, JobHeading, 69) && Occurs(s, ListStart, 143)
    ensures Occurs(s, FirstItem, 168) && Occurs(s, SecondItem, 206) && Occurs(s, ListEnd, 238)
    ensures Occurs(s, SkillsHeader, 258) && Occurs(s, FirstSkills, 275) && Occurs(s, SecondSkills, 324)
    ensures Occurs(s, EndDocument, 359)
  {
    OccursCompose(s, 0, head, 1, DocClassLine);
    OccursCompose(s, 0, head, 25, BeginDocument);
    OccursCompose(s, 43, work, 0, WorkHeader);
    OccursCompose(s, 43, work, 26, JobHeading);
    OccursCompose(s, 43, work, 100, ListStart);
    OccursCompose(s, 43, work, 125, FirstItem);
    OccursCompose(s, 43, work, 163, SecondItem);
    OccursCompose(s, 43, work, 195, ListEnd);
    OccursCompose(s, 258, skills, 0, SkillsHeader);
    OccursCompose(s, 258, skills, 17, FirstSkills);
    OccursCompose(s, 258, skills, 66, SecondSkills);
    OccursCompose(s, 359, tail, 0, EndDocument);
  }

  /** The backslashes of the whole text, from those of its parts. */
  lemma TextMarksFrom(s: string, head: string, work: string, skills: string, tail: string)
    requires Occurs(s, head, 0) && Occurs(s, work, 43) && Occurs(s, skills, 258) && Occurs(s, tail, 359)
    requires |s| == 374 && |head| == 43 && |work| == 215 && |skills| == 101 && |tail| == 15
    requires Marks(head, 0, 43, {1, 25}) && Marks(work, 0, 215, {0, 26, 100, 125, 163, 195})
    requires Marks(skills, 0, 101, {0, 17, 66}) && Marks(tail, 0, 15, {0})
    ensures Marks(s, 0, 374, TextMarks)
  {
    MarksLift(s, head, 0, {1, 25}, TextMarks);
    MarksLift(s, work, 43, {0, 26, 100, 125, 163, 195}, TextMarks);
    MarksLift(s, skills, 258, {0, 17, 66}, TextMarks);
    MarksLift(s, tail, 359, {0}, TextMarks);
  }

  lemma SampleTextShape()
    ensures TextShape(SampleText)
  {
    SamplePlaces();
    HeadPlaces();
    WorkTextShape();
    SkillsTextShape();
    TailPlaces();
    TextLinesFrom(SampleText, Head, WorkText, SkillsText, Tail);
    TextMarksFrom(SampleText, Head, WorkText, SkillsText, Tail);
  }

  /** The letter after each backslash of the text, which tells its macros apart. */
  predicate Letters(s: string) {
    && |s| == 374
    && s[2] == 'd' && s[26] == 'b' && s[44] == 's' && s[70] == 'r'
    && s[144] == 'r' && s[169] == 'r' && s[207] == 'r' && s[239] == 'r'
    && s[259] == 's' && s[276] == 't' && s[325] == 't' && s[360] == 'e'
  }

  /** The second character of a piece, seen in the text. */
  lemma LetterAt(s: string, w: string, q: nat, c: char)
    requires Occurs(s, w, q) && |w| > 1 && w[1] == c
    ensures q + 1 < |s| && s[q + 1] == c
  {
    OccursChar(s, w, q, 1);
  }

  lemma HeadLetters(s: string)
    requires Occurs(s, DocClassLine, 1) && Occurs(s, BeginDocument, 25)
    requires Occurs(s, WorkHeader, 43) && Occurs(s, JobHeading, 69)
    ensures |s| > 70 && s[2] == 'd' && s[26] == 'b' && s[44] == 's' && s[70] == 'r'
  {
    LetterAt(s, DocClassLine, 1, 'd');
    LetterAt(s, BeginDocument, 25, 'b');
    LetterAt(s, WorkHeader, 43, 's');
    LetterAt(s, JobHeading, 69, 'r');
  }

  lemma ListLetters(s: string)
    requires Occurs(s, ListStart, 143) && Occurs(s, FirstItem, 168)
    requires Occurs(s, SecondItem, 206) && Occurs(s, ListEnd, 238)
    ensures |s| > 239 && s[144] == 'r' && s[169] == 'r' && s[207] == 'r' && s[239] == 'r'
  {
    LetterAt(s, ListStart, 143, 'r');
    LetterAt(s, FirstItem, 168, 'r');
    LetterAt(s, SecondItem, 206, 'r');
    LetterAt(s, ListEnd, 238, 'r');
  }

  lemma SkillsLetters(s: string)
    requires Occurs(s, SkillsHeader, 258) && Occurs(s, FirstSkills, 275)
    requires Occurs(s, SecondSkills, 324) && Occurs(s, EndDocument, 359)
    ensures |s| > 360 && s[259] == 's' && s[276] == 't' && s[325] == 't' && s[360] == 'e'
  {
    LetterAt(s, SkillsHeader, 258, 's');
    LetterAt(s, FirstSkills, 275, 't');
    LetterAt(s, SecondSkills, 324, 't');
    LetterAt(s, EndDocument, 359, 'e');
  }

  lemma TextLetters(s: string)
    requires TextShape(s)
    ensures Letters(s)
  {
    HeadLetters(s);
    ListLetters(s);
    SkillsLetters(s);
  }

  /** The first two characters of the literals searched for. */
  lemma PatternLetters()
    ensures |Lead(SectionHeader)| > 1 && Lead(SectionHeader)[0] == '\\' && Lead(SectionHeader)[1] == 's'
    ensures |Lead(DocumentClass)| > 1 && Lead(DocumentClass)[0] == '\\'
    ensures |BeginDocument| > 1 && BeginDocument[0] == '\\' && BeginDocument[1] == 'b'
    ensures |EndDocument| > 1 && EndDocument[0] == '\\' && EndDocument[1] == 'e'
  {
  }

  /** A literal whose second character differs from the text's is not there. */
  lemma NotAt(s: string, pat: string, q: nat)
    requires q + 1 < |s| && |pat| > 1 && s[q + 1] != pat[1]
    ensures !Occurs(s, pat, q)
  {
    if Occurs(s, pat, q) {
      OccursChar(s, pat, q, 1);
    }
  }

  lemma FirstHeaderFound(s: string)
    requires Letters(s) && Marks(s, 0, 374, TextMarks) && Occurs(s, WorkHeader, 43)
    ensures Search(SectionHeader, s, 0) == Some(Match(43, 68, ["Work Experience"]))
  {
    var pat := Lead(SectionHeader);
    PatternLetters();
    NotAt(s, pat, 1);
    NotAt(s, pat, 25);
    MarksAbsent(s, pat, 0, 43, TextMarks);
    AbsentNoMatch(SectionHeader, s, 0, 43);
    SectionMatch(s, 43, "Work Experience");
    SearchFirst(SectionHeader, s, 0, 43);
  }

  lemma SecondHeaderFound(s: string)
    requires Letters(s) && Marks(s, 0, 374, TextMarks) && Occurs(s, SkillsHeader, 258)
    ensures Search(SectionHeader, s, 68) == Some(Match(258, 274, ["Skills"]))
  {
    var pat := Lead(SectionHeader);
    PatternLetters();
    NotAt(s, pat, 69);
    NotAt(s, pat, 143);
    NotAt(s, pat, 168);
    NotAt(s, pat, 206);
    NotAt(s, pat, 238);
    MarksAbsent(s, pat, 68, 258, TextMarks);
    AbsentNoMatch(SectionHeader, s, 68, 258);
    SectionMatch(s, 258, "Skills");
    SearchFirst(SectionHeader, s, 68, 258);
  }

  lemma NoThirdHeader(s: string)
    requires Letters(s) && Marks(s, 0, 374, TextMarks)
    ensures Search(SectionHeader, s, 274) == None
  {
    var pat := Lead(SectionHeader);
    PatternLetters();
    NotAt(s, pat, 275);
    NotAt(s, pat, 324);
    NotAt(s, pat, 359);
    MarksAbsent(s, pat, 274, 374, TextMarks);
    AbsentNoMatch(SectionHeader, s, 274, 374);
    SearchNothing(SectionHeader, s, 274);
  }

  lemma DocClassFound(s: string)
    requires Letters(s) && Marks(s, 0, 374, TextMarks) && Occurs(s, DocClassLine, 1)
    ensures Search(DocumentClass, s, 0) == Some(Match(1, 24, ["article"]))
  {
    PatternLetters();
    MarksAbsent(s, Lead(DocumentClass), 0, 1, TextMarks);
    AbsentNoMatch(DocumentClass, s, 0, 1);
    DocumentClassMatch(s, 1, "article");
    SearchFirst(DocumentClass, s, 0, 1);
  }

  lemma BeginFound(s: string)
    requires Letters(s) && Marks(s, 0, 374, TextMarks) && Occurs(s, BeginDocument, 25)
    ensures Find(s, BeginDocument, 0) == 25
  {
    PatternLetters();
    NotAt(s, BeginDocument, 1);
    MarksAbsent(s, BeginDocument, 0, 25, TextMarks);
    FindFirst(s, BeginDocument, 0, 25);
  }

  lemma EndFound(s: string)
    requires Letters(s) && Marks(s, 0, 374, TextMarks) && Occurs(s, EndDocument, 359)
    ensures Find(s, EndDocument, 0) == 359
  {
    var pat := EndDocument;
    PatternLetters();
    NotAt(s, pat, 1);
    NotAt(s, pat, 25);
    NotAt(s, pat, 43);
    NotAt(s, pat, 69);
    NotAt(s, pat, 143);
    NotAt(s, pat, 168);
    NotAt(s, pat, 206);
    NotAt(s, pat, 238);
    NotAt(s, pat, 258);
    NotAt(s, pat, 275);
    NotAt(s, pat, 324);
    MarksAbsent(s, pat, 0, 359, TextMarks);
    FindFirst(s, pat, 0, 359);
  }

  // ---------------------------------------------------------------------------
  // What the parser makes of the sample
  // ---------------------------------------------------------------------------

  /** No printable ASCII character other than the space is whitespace. */
  lemma PrintableNotSpace(c: char)
    requires '!' <= c <= '~'
    ensures c !in Whitespace
  {
  }

  /** `strip` keeps a string that starts and ends with a printable character. */
  lemma StripKeeps(s: string)
    requires s != [] ==> '!' <= s[0] <= '~' && '!' <= s[|s| - 1] <= '~'
    ensures Strip(s) == s
  {
    if s != [] {
      PrintableNotSpace(s[0]);
      PrintableNotSpace(s[|s| - 1]);
    }
    assert LStrip(s, Whitespace) == s;
    assert RStrip(s, Whitespace) == s;
  }

  /** The bullet texts have no surrounding whitespace and fit the 30
      characters an id key keeps. */
  lemma BulletTexts()
    ensures Strip("Built data pipelines") == "Built data pipelines"
    ensures Strip("Deployed ML models") == "Deployed ML models"
    ensures PyPrefix("Built data pipelines", 30) == "Built data pipelines"
    ensures PyPrefix("Deployed ML models", 30) == "Deployed ML models"
  {
    StripKeeps("Built data pipelines");
    StripKeeps("Deployed ML models");
  }

  /** The job's fields have no surrounding whitespace. */
  lemma JobTexts()
    ensures Strip("Data Engineer") == "Data Engineer"
    ensures Strip("TekLink International") == "TekLink International"
    ensures Strip("Jan 2024") == "Jan 2024" && Strip("Remote") == "Remote"
  {
    StripKeeps("Data Engineer");
    StripKeeps("TekLink International");
    StripKeeps("Jan 2024");
    StripKeeps("Remote");
  }

  /** The skill lines' fields have no surrounding whitespace. */
  lemma SkillTexts()
    ensures Strip("Programming") == "Programming" && Strip("Cloud") == "Cloud"
    ensures Strip("Python, JavaScript, Java") == "Python, JavaScript, Java"
    ensures Strip("AWS, GCP, Azure") == "AWS, GCP, Azure"
  {
    StripKeeps("Programming");
    StripKeeps("Cloud");
    StripKeeps("Python, JavaScript, Java");
    StripKeeps("AWS, GCP, Azure");
  }

  /** Lengths of the parts of the text. */
  lemma PartLengths()
    ensures |WorkText| == 215 && |SkillsText| == 101 && |BulletList| == 95
  {
    WorkTextPlaces();
    SkillsTextShape();
    BulletListShape();
  }

  /** The two section headers of the text, in document order. */
  lemma SampleHeaders()
    ensures Headers(SampleText) == [Match(43, 68, ["Work Experience"]), Match(258, 274, ["Skills"])]
  {
    var s := SampleText;
    SampleTextShape();
    TextLetters(s);
    FirstHeaderFound(s);
    SecondHeaderFound(s);
    NoThirdHeader(s);
    FindIterStep(SectionHeader, s, 0);
    FindIterStep(SectionHeader, s, 68);
    FindIterStep(SectionHeader, s, 274);
  }

  /** `\end{document}` is first found at 359. */
  lemma SampleEnd()
    ensures Find(SampleText, EndDocument, 0) == 359
  {
    SampleTextShape();
    TextLetters(SampleText);
    EndFound(SampleText);
  }

  /** `\begin{document}` is first found at 25. */
  lemma SampleBegin()
    ensures Find(SampleText, BeginDocument, 0) == 25
  {
    SampleTextShape();
    TextLetters(SampleText);
    BeginFound(SampleText);
  }

  /** The first `\documentclass{…}` is the one at 1. */
  lemma SampleDocClass()
    ensures Search(DocumentClass, SampleText, 0) == Some(Match(1, 24, ["article"]))
  {
    SampleTextShape();
    TextLetters(SampleText);
    DocClassFound(SampleText);
  }

  /** The experience section runs up to the skills header. */
  lemma WorkContent(hs: seq<Match>)
    requires hs == [Match(43, 68, ["Work Experience"]), Match(258, 274, ["Skills"])]
    ensures SectionContent(SampleText, hs, 0) == WorkText
  {
    SamplePlaces();
    PartLengths();
  }

  /** The skills section, the last one, runs up to `\end{document}`. */
  lemma SkillsContent(hs: seq<Match>)
    requires hs == [Match(43, 68, ["Work Experience"]), Match(258, 274, ["Skills"])]
    ensures SectionContent(SampleText, hs, 1) == SkillsText
  {
    SamplePlaces();
    PartLengths();
    SampleEnd();
  }

  /** A list with exactly two `\resumeItem` matches gives two bullets. */
  lemma TwoBullets(digest: Digest, content: string, base: nat, off: nat, m1: Match, m2: Match)
    requires FindIter(ResumeItem, content, 0) == [m1, m2]
    ensures Bullets(digest, content, base, off)
         == ([BulletOf(digest, base, off, m1).0, BulletOf(digest, base, off, m2).0],
             [BulletOf(digest, base, off, m1).1, BulletOf(digest, base, off, m2).1])
  {
    var ms := FindIter(ResumeItem, content, 0);
    var b1, b2 := BulletOf(digest, base, off, m1), BulletOf(digest, base, off, m2);
    var r1 := BulletsUpTo(digest, ms, base, off, 1);
    assert r1.0 == [b1.0] && r1.1 == [b1.1];
    var r2 := BulletsUpTo(digest, ms, base, off, 2);
    assert r2.0 == r1.0 + [b2.0] && r2.1 == r1.1 + [b2.1];
    assert r2.0 == [b1.0, b2.0] && r2.1 == [b1.1, b2.1];
  }

  /** The bullets of the job: both texts kept whole, at their offsets in the text. */
  lemma SampleBullets(digest: Digest)
    ensures Bullets(digest, BulletList, 43, 100)
         == ([Bullet(GenerateId(digest, "bullet_" + "Built data pipelines"), "Built data pipelines"),
              Bullet(GenerateId(digest, "bullet_" + "Deployed ML models"), "Deployed ML models")],
             [(GenerateId(digest, "bullet_" + "Built data pipelines"), Span(168, 201)),
              (GenerateId(digest, "bullet_" + "Deployed ML models"), Span(206, 237))])
  {
    BulletMatches();
    TwoBullets(digest, BulletList, 43, 100,
      Match(25, 58, ["Built data pipelines"]), Match(63, 94, ["Deployed ML models"]));
    BulletTexts();
  }

  /** The job's bullet list is the piece between its list markers. */
  lemma SampleEntry(digest: Digest)
    ensures EntryBullets(digest, WorkText, 43, 99) == Bullets(digest, BulletList, 43, 100)
    ensures Find(WorkText, ListEnd, 99) == 195
  {
    WorkTextPlaces();
    PartLengths();
    WorkTextShape();
    JobListFound(WorkText);
  }

  /** The job's fields are its heading's four arguments, kept whole. */
  lemma SampleJobNode(digest: Digest, bullets: seq<Bullet>)
    ensures JobNode(digest, Match(26, 99, JobFields), bullets)
         == Job(GenerateId(digest, "TekLink International" + "_" + "Data Engineer"), "Data Engineer",
                "TekLink International", "Jan 2024", "Remote", bullets)
  {
    JobTexts();
  }

  /** A job whose list holds two bullets. */
  lemma JobOfTwo(digest: Digest, content: string, m: Match, job: Job, b1: Bullet, b2: Bullet, r1: Reg, r2: Reg)
    requires EntryBullets(digest, content, 43, m.end) == ([b1, b2], [r1, r2])
    requires Find(content, ListEnd, m.end) == 195 && m.start == 26
    requires JobNode(digest, m, [b1, b2]) == job
    ensures JobOf(digest, content, 43, m) == (job, [r1, r2, (job.id, Span(69, 238))])
  {
    ParseProps.JobOfParts(digest, content, 43, m, [b1, b2], [r1, r2], 195);
    assert [r1, r2] + [(job.id, Span(69, 238))] == [r1, r2, (job.id, Span(69, 238))];
  }

  /** The job node, and the writes for its bullets followed by its own, whose
      span runs from the heading to the list end. */
  lemma SampleJob(digest: Digest)
    ensures JobOf(digest, WorkText, 43, Match(26, 99, JobFields))
         == (Job(GenerateId(digest, "TekLink International" + "_" + "Data Engineer"), "Data Engineer",
                 "TekLink International", "Jan 2024", "Remote",
                 [Bullet(GenerateId(digest, "bullet_" + "Built data pipelines"), "Built data pipelines"),
                  Bullet(GenerateId(digest, "bullet_" + "Deployed ML models"), "Deployed ML models")]),
             [(GenerateId(digest, "bullet_" + "Built data pipelines"), Span(168, 201)),
              (GenerateId(digest, "bullet_" + "Deployed ML models"), Span(206, 237)),
              (GenerateId(digest, "TekLink International" + "_" + "Data Engineer"), Span(69, 238))])
  {
    SampleEntry(digest);
    SampleBullets(digest);
    var i1, i2 := GenerateId(digest, "bullet_" + "Built data pipelines"), GenerateId(digest, "bullet_" + "Deployed ML models");
    var b1, b2 := Bullet(i1, "Built data pipelines"), Bullet(i2, "Deployed ML models");
    SampleJobNode(digest, [b1, b2]);
    JobOfTwo(digest, WorkText, Match(26, 99, JobFields),
      Job(GenerateId(digest, "TekLink International" + "_" + "Data Engineer"), "Data Engineer",
          "TekLink International", "Jan 2024", "Remote", [b1, b2]),
      b1, b2, (i1, Span(168, 201)), (i2, Span(206, 237)));
  }

  /** Two skill lines give two categories, each spanning its own line. */
  lemma TwoCategories(digest: Digest, base: nat, m1: Match, m2: Match)
    ensures CategoriesUpTo(digest, base, [m1, m2], 2)
         == ([CategoryOf(digest, base, m1).0, CategoryOf(digest, base, m2).0],
             [CategoryOf(digest, base, m1).1, CategoryOf(digest, base, m2).1])
  {
    var c1, c2 := CategoryOf(digest, base, m1), CategoryOf(digest, base, m2);
    var r1 := CategoriesUpTo(digest, base, [m1, m2], 1);
    assert r1.0 == [c1.0] && r1.1 == [c1.1];
    var r2 := CategoriesUpTo(digest, base, [m1, m2], 2);
    assert r2.0 == [c1.0, c2.0] && r2.1 == [c1.1, c2.1];
  }

  /** A skills section with two skill lines. */
  lemma SkillsSectionOf(digest: Digest, content: string, base: nat, m1: Match, m2: Match)
    requires FindIter(SkillLine, content, 0) == [m1, m2]
    ensures SectionOf(digest, "Skills", content, base)
         == (Skills(GenerateId(digest, "section_" + "Skills"), "Skills",
                    [CategoryOf(digest, base, m1).0, CategoryOf(digest, base, m2).0]),
             [CategoryOf(digest, base, m1).1, CategoryOf(digest, base, m2).1])
  {
    assert KindOf("Skills") == SkillsKind;
    TwoCategories(digest, base, m1, m2);
  }

  /** The categories of the skills section: labels and items kept whole, each
      spanning its line of the text. */
  lemma SampleSkills(digest: Digest)
    ensures SectionOf(digest, "Skills", SkillsText, 258)
         == (Skills(GenerateId(digest, "section_" + "Skills"), "Skills",
                    [Category(GenerateId(digest, "skill_" + "Programming"), "Programming", "Python, JavaScript, Java"),
                     Category(GenerateId(digest, "skill_" + "Cloud"), "Cloud", "AWS, GCP, Azure")]),
             [(GenerateId(digest, "skill_" + "Programming"), Span(275, 323)),
              (GenerateId(digest, "skill_" + "Cloud"), Span(324, 357))])
  {
    var m1 := Match(17, 65, ["Programming", "Python, JavaScript, Java"]);
    var m2 := Match(66, 99, ["Cloud", "AWS, GCP, Azure"]);
    SkillsMatches();
    SkillsSectionOf(digest, SkillsText, 258, m1, m2);
    SkillTexts();
  }

  /** One job heading gives one job. */
  lemma OneJob(digest: Digest, content: string, base: nat, m: Match)
    ensures JobsUpTo(digest, content, base, [m], 1) == ([JobOf(digest, content, base, m).0], JobOf(digest, content, base, m).1)
  {
    var j := JobOf(digest, content, base, m);
    assert JobsUpTo(digest, content, base, [m], 0) == ([], []);
    assert [m][0] == m;
    assert [] + [j.0] == [j.0] && [] + j.1 == j.1;
  }

  /** An experience section with one job heading. */
  lemma ExperienceSectionOf(digest: Digest, content: string, base: nat, m: Match)
    requires FindIter(Subheading, content, 0) == [m]
    ensures SectionOf(digest, "Work Experience", content, base)
         == (Experience(GenerateId(digest, "section_" + "Work Experience"), "Work Experience",
                        [JobOf(digest, content, base, m).0]),
             JobOf(digest, content, base, m).1)
  {
    assert KindOf("Work Experience") == ExperienceKind;
    OneJob(digest, content, base, m);
  }

  /** The experience section: its one job, with the job's writes. */
  lemma SampleExperience(digest: Digest)
    ensures SectionOf(digest, "Work Experience", WorkText, 43)
         == (Experience(GenerateId(digest, "section_" + "Work Experience"), "Work Experience",
                        [Job(GenerateId(digest, "TekLink International" + "_" + "Data Engineer"), "Data Engineer",
                             "TekLink International", "Jan 2024", "Remote",
                             [Bullet(GenerateId(digest, "bullet_" + "Built data pipelines"), "Built data pipelines"),
                              Bullet(GenerateId(digest, "bullet_" + "Deployed ML models"), "Deployed ML models")])]),
             [(GenerateId(digest, "bullet_" + "Built data pipelines"), Span(168, 201)),
              (GenerateId(digest, "bullet_" + "Deployed ML models"), Span(206, 237)),
              (GenerateId(digest, "TekLink International" + "_" + "Data Engineer"), Span(69, 238))])
  {
    JobMatches();
    ExperienceSectionOf(digest, WorkText, 43, Match(26, 99, JobFields));
    SampleJob(digest);
  }

  /** Two headers give two sections, the writes of the first before those of the second. */
  lemma TwoSections(digest: Digest, text: string, hs: seq<Match>)
    requires |hs| == 2
    ensures var s0 := SectionOf(digest, G(hs[0], 0), SectionContent(text, hs, 0), hs[0].start);
      var s1 := SectionOf(digest, G(hs[1], 0), SectionContent(text, hs, 1), hs[1].start);
      SectionsUpTo(digest, text, hs, 2) == ([s0.0, s1.0], s0.1 + s1.1)
  {
    var s0 := SectionOf(digest, G(hs[0], 0), SectionContent(text, hs, 0), hs[0].start);
    var s1 := SectionOf(digest, G(hs[1], 0), SectionContent(text, hs, 1), hs[1].start);
    var r0 := SectionsUpTo(digest, text, hs, 0);
    var r1 := SectionsUpTo(digest, text, hs, 1);
    var r2 := SectionsUpTo(digest, text, hs, 2);
    assert r0 == ([], []);
    assert r1 == (r0.0 + [s0.0], r0.1 + s0.1);
    assert r1.0 == [s0.0] && r1.1 == s0.1;
    assert r2 == (r1.0 + [s1.0], r1.1 + s1.1);
    assert [s0.0] + [s1.0] == [s0.0, s1.0];
  }

  /** The two sections of the text, in order. */
  lemma SampleSections(digest: Digest)
    ensures Sections(digest, SampleText)
         == ([SectionOf(digest, "Work Experience", WorkText, 43).0, SectionOf(digest, "Skills", SkillsText, 258).0],
             SectionOf(digest, "Work Experience", WorkText, 43).1 + SectionOf(digest, "Skills", SkillsText, 258).1)
  {
    var hs := [Match(43, 68, ["Work Experience"]), Match(258, 274, ["Skills"])];
    SampleHeaders();
    WorkContent(hs);
    SkillsContent(hs);
    assert G(hs[0], 0) == "Work Experience" && G(hs[1], 0) == "Skills";
    TwoSections(digest, SampleText, hs);
  }

  /** A piece of the left operand of a concatenation is kept in it. */
  lemma PieceKept(a: string, b: string, i: nat, j: nat)
    requires i <= j <= |a|
    ensures (a + b)[i..j] == a[i..j]
  {
  }

  /** A piece of the head is kept in the whole text. */
  lemma HeadKept(i: nat, j: nat)
    requires i <= j <= |Head|
    ensures SampleText[i..j] == Head[i..j]
  {
    var t1 := Head + WorkText;
    var t2 := t1 + SkillsText;
    PieceKept(Head, WorkText, i, j);
    PieceKept(t1, SkillsText, i, j);
    PieceKept(t2, Tail, i, j);
  }

  lemma DocClassText()
    ensures DocClassLine == "\\documentclass{article}"
    ensures Preamble == "\n\\documentclass{article}\n"
  {
  }

  /** The preamble is everything before `\begin{document}`; the document class
      is the whole `\documentclass{…}` command. */
  lemma SampleHead()
    ensures PreambleOf(SampleText, "") == "\n\\documentclass{article}\n"
    ensures DocumentClassOf(SampleText, "") == "\\documentclass{article}"
  {
    HeadPlaces();
    SampleBegin();
    SampleDocClass();
    HeadKept(0, 25);
    HeadKept(1, 24);
    DocClassText();
  }

  /** Five writes into an empty map, one after the other. */
  lemma RegisterFive(a: Reg, b: Reg, c: Reg, d: Reg, e: Reg)
    ensures Register(map[], [a, b, c, d, e]) == map[][a.0 := a.1][b.0 := b.1][c.0 := c.1][d.0 := d.1][e.0 := e.1]
  {
    assert Register(map[], []) == map[];
    RegisterSnoc(map[], [], a);
    RegisterSnoc(map[], [a], b);
    RegisterSnoc(map[], [a, b], c);
    RegisterSnoc(map[], [a, b, c], d);
    RegisterSnoc(map[], [a, b, c, d], e);
    assert [] + [a] == [a];
    assert [a] + [b] == [a, b];
    assert [a, b] + [c] == [a, b, c];
    assert [a, b, c] + [d] == [a, b, c, d];
    assert [a, b, c, d] + [e] == [a, b, c, d, e];
  }

  /** A parse from its two sections, their five writes and the head fields. */
  lemma ParseTwoSections(digest: Digest, text: string, w: (Section, seq<Reg>), k: (Section, seq<Reg>),
                         r1: Reg, r2: Reg, r3: Reg, r4: Reg, r5: Reg, pre: string, dc: string)
    requires Sections(digest, text) == ([w.0, k.0], w.1 + k.1)
    requires w.1 == [r1, r2, r3] && k.1 == [r4, r5]
    requires PreambleOf(text, "") == pre && DocumentClassOf(text, "") == dc
    ensures Parse(digest, text)
         == (Tree([w.0, k.0], pre, dc), map[][r1.0 := r1.1][r2.0 := r2.1][r3.0 := r3.1][r4.0 := r4.1][r5.0 := r5.1])
  {
    assert w.1 + k.1 == [r1, r2, r3, r4, r5];
    RegisterFive(r1, r2, r3, r4, r5);
  }

  /** The tree the sample résumé parses to: an experience section holding one
      job with its two bullets, then a skills section with two categories, and
      the head fields. */
  function SampleTree(digest: Digest): Tree {
    var b1, b2 := GenerateId(digest, "bullet_" + "Built data pipelines"), GenerateId(digest, "bullet_" + "Deployed ML models");
    var job := GenerateId(digest, "TekLink International" + "_" + "Data Engineer");
    var c1, c2 := GenerateId(digest, "skill_" + "Programming"), GenerateId(digest, "skill_" + "Cloud");
    Tree([Experience(GenerateId(digest, "section_" + "Work Experience"), "Work Experience",
                     [Job(job, "Data Engineer", "TekLink International", "Jan 2024", "Remote",
                          [Bullet(b1, "Built data pipelines"), Bullet(b2, "Deployed ML models")])]),
          Skills(GenerateId(digest, "section_" + "Skills"), "Skills",
                 [Category(c1, "Programming", "Python, JavaScript, Java"),
                  Category(c2, "Cloud", "AWS, GCP, Azure")])],
         "\n\\documentclass{article}\n", "\\documentclass{article}")
  }

  /** The id map after parsing the sample résumé: its entries are written
      bullet, bullet, job, category, category, each span covering its entry's
      text. */
  function SampleIds(digest: Digest): map<string, Span> {
    var b1, b2 := GenerateId(digest, "bullet_" + "Built data pipelines"), GenerateId(digest, "bullet_" + "Deployed ML models");
    var job := GenerateId(digest, "TekLink International" + "_" + "Data Engineer");
    var c1, c2 := GenerateId(digest, "skill_" + "Programming"), GenerateId(digest, "skill_" + "Cloud");
    map[][b1 := Span(168, 201)][b2 := Span(206, 237)][job := Span(69, 238)][c1 := Span(275, 323)][c2 := Span(324, 357)]
  }

  lemma SampleParse(digest: Digest)
    ensures Parse(digest, SampleText) == (SampleTree(digest), SampleIds(digest))
  {
    var b1, b2 := GenerateId(digest, "bullet_" + "Built data pipelines"), GenerateId(digest, "bullet_" + "Deployed ML models");
    var job := GenerateId(digest, "TekLink International" + "_" + "Data Engineer");
    var c1, c2 := GenerateId(digest, "skill_" + "Programming"), GenerateId(digest, "skill_" + "Cloud");
    SampleExperience(digest);
    SampleSkills(digest);
    SampleSections(digest);
    SampleHead();
    ParseTwoSections(digest, SampleText,
      SectionOf(digest, "Work Experience", WorkText, 43), SectionOf(digest, "Skills", SkillsText, 258),
      (b1, Span(168, 201)), (b2, Span(206, 237)), (job, Span(69, 238)), (c1, Span(275, 323)), (c2, Span(324, 357)),
      "\n\\documentclass{article}\n", "\\documentclass{article}");
  }
}
