/** The seven regular expressions the parser uses, each written out as an explicit
    left-to-right scanner, and Python's `re.search` / `re.finditer` on top of
    them: the leftmost match at or after a position, and the list of
    non-overlapping leftmost matches in document order.

    Every pattern starts with a literal macro name and contains no alternative
    that backtracking could revive, so each scanner is deterministic: at a given
    start index it either produces the one match Python's engine would produce
    or none. */
module Regex {
  import opened PyStr
  import opened Wrappers

  /** One match: the half-open range `[start, end)` it covers and its capture
      groups in order. */
  datatype Match = Match(start: nat, end: nat, groups: seq<string>)

  datatype Pattern =
    | DocumentClass   // `\documentclass` and one brace argument
    | SectionHeader   // `\section`, then one brace argument (the name)
    | Subheading      // `\resumeSubheading`, optional whitespace, four brace arguments
    | ProjectHeading  // `\resumeProjectHeading`, optional whitespace, then
                      // `{\textbf{name}…}` and a brace argument (technologies)
    | SkillLine       // `\textbf{label}` directly followed by `{:`, optional
                      // whitespace and the items up to the next `}`
    | BoldLabel       // `\textbf` and one brace argument
    | ResumeItem      // `\resumeItem{…}` whose argument may hold `{…}` groups
                      // with no further braces inside

  function GroupCount(p: Pattern): nat {
    match p
    case DocumentClass => 1
    case SectionHeader => 1
    case Subheading => 4
    case ProjectHeading => 2
    case SkillLine => 2
    case BoldLabel => 1
    case ResumeItem => 1
  }

  /** The literal every match of the pattern starts with. */
  function Lead(p: Pattern): string {
    match p
    case DocumentClass => "\\documentclass{"
    case SectionHeader => "\\section{"
    case Subheading => "\\resumeSubheading"
    case ProjectHeading => "\\resumeProjectHeading"
    case SkillLine => "\\textbf{"
    case BoldLabel => "\\textbf{"
    case ResumeItem => "\\resumeItem{"
  }

  // ---------------------------------------------------------------------------
  // Building blocks
  // ---------------------------------------------------------------------------

  /** Greedy `\s*` from index `j`: the first index at or after `j` that does not
      hold whitespace. */
  function SkipSpace(s: string, j: nat): (k: nat)
    requires j <= |s|
    ensures j <= k <= |s|
    ensures forall i :: j <= i < k ==> IsSpace(s[i])
    ensures k == |s| || !IsSpace(s[k])
    decreases |s| - j
  {
    if j < |s| && IsSpace(s[j]) then SkipSpace(s, j + 1) else j
  }

  /** `n` adjacent brace arguments, each a `{`, one or more characters other
      than `}`, and a `}`, the first `{` at index `p`: the arguments' contents
      and the index just past the last `}`. */
  /** `find("}")` stops at a `}` and passes none on the way. */
  lemma CloseBraceAtFind(s: string, from: nat)
    ensures var k := Find(s, "}", from);
      && (k >= 0 ==> k < |s| && s[k] == '}')
      && forall i :: from <= i < k ==> s[i] != '}'
  {
    var k := Find(s, "}", from);
    FindSpec(s, "}", from);
    if k >= 0 {
      assert s[k..k + 1] == "}";
    }
    forall i | from <= i < k ensures s[i] != '}' {
      assert !Occurs(s, "}", i);
      assert s[i..i + 1] == [s[i]];
    }
  }

  function BraceArgs(s: string, p: nat, n: nat): (r: Option<(seq<string>, nat)>)
    requires p <= |s|
    ensures r.Some? ==> |r.value.0| == n && p <= r.value.1 <= |s|
    ensures r.Some? && n > 0 ==> p < r.value.1 && s[r.value.1 - 1] == '}' && s[p] == '{'
    ensures r.Some? ==> forall k :: 0 <= k < n ==> |r.value.0[k]| > 0 && '}' !in r.value.0[k]
    decreases n
  {
    if n == 0 then Some(([], p))
    else if p < |s| && s[p] == '{' then
      var k := Find(s, "}", p + 1);
      CloseBraceAtFind(s, p + 1);
      if k > p + 1 then
        match BraceArgs(s, k + 1, n - 1)
        case None => None
        case Some(rest) =>
          Some(([s[p + 1..k]] + rest.0, rest.1))
      else None
    else None
  }

  predicate IsBrace(c: char) {
    c == '{' || c == '}'
  }

  /** The first index at or after `j` holding a brace, or -1. */
  function NextBrace(s: string, j: nat): (k: int)
    ensures k == -1 || (j <= k < |s| && IsBrace(s[k]))
    ensures forall i :: j <= i < |s| && (k == -1 || i < k) ==> !IsBrace(s[i])
    decreases |s| - j
  {
    if j >= |s| then -1
    else if IsBrace(s[j]) then j
    else NextBrace(s, j + 1)
  }

  /** The argument of `\resumeItem{` that begins at `j`: any run of characters
      other than braces and of `{…}` groups without braces inside, then the
      closing `}`. Returns the index of that `}`, or -1 when there is none. */
  function ItemArgEnd(s: string, j: nat): (k: int)
    ensures k == -1 || (j <= k < |s| && s[k] == '}')
    decreases |s| - j
  {
    if j >= |s| then -1
    else if s[j] == '}' then j
    else if s[j] != '{' then ItemArgEnd(s, j + 1)
    else
      var k := NextBrace(s, j + 1);
      if k >= 0 && s[k] == '}' then ItemArgEnd(s, k + 1) else -1
  }

  /** The value of the second group of the skills pattern when the items start
      at `a` and the closing `}` is at `k > a`: greedy `\s*` eats leading
      whitespace, but gives one character back when nothing else is left. */
  function SkillItemsGroup(s: string, a: nat, k: nat): string
    requires a < k < |s|
  {
    var w := SkipSpace(s, a);
    if w < k then s[w..k] else s[k - 1..k]
  }

  // ---------------------------------------------------------------------------
  // One match at a given index
  // ---------------------------------------------------------------------------

  /** The bounds every single-pattern scanner below guarantees. */
  predicate InText(s: string, i: nat, r: Option<Match>) {
    r.Some? ==> r.value.start == i < r.value.end <= |s|
  }

  /** `\\documentclass\{[^}]+\}` at index `i`. */
  function DocumentClassAt(s: string, i: nat): (r: Option<Match>)
    ensures InText(s, i, r)
  {
    if Occurs(s, "\\documentclass", i) then
      match BraceArgs(s, i + 14, 1)
      case Some(args) => Some(Match(i, args.1, args.0))
      case None => None
    else None
  }

  /** `\\section\{([^}]+)\}` at index `i`. */
  function SectionAt(s: string, i: nat): (r: Option<Match>)
    ensures InText(s, i, r)
  {
    if Occurs(s, "\\section", i) then
      match BraceArgs(s, i + 8, 1)
      case Some(args) => Some(Match(i, args.1, args.0))
      case None => None
    else None
  }

  /** `\\resumeSubheading\s*` and four `\{([^}]+)\}` at index `i`. */
  function SubheadingAt(s: string, i: nat): (r: Option<Match>)
    ensures InText(s, i, r)
  {
    if Occurs(s, "\\resumeSubheading", i) then
      var j := SkipSpace(s, i + 17);
      match BraceArgs(s, j, 4)
      case Some(args) => Some(Match(i, args.1, args.0))
      case None => None
    else None
  }

  /** `\\resumeProjectHeading\s*\{\\textbf\{([^}]+)\}[^}]*\}\{([^}]+)\}` at index `i`. */
  function ProjectHeadingAt(s: string, i: nat): (r: Option<Match>)
    ensures InText(s, i, r)
    ensures r.Some? ==>
      && Occurs(s, "\\resumeProjectHeading", i) && |r.value.groups| == 2 && s[r.value.end - 1] == '}'
  {
    if Occurs(s, "\\resumeProjectHeading", i) then ProjectHeadingArgs(s, i, SkipSpace(s, i + 21))
    else None
  }

  /** The part of the project heading pattern after the command name and the
      white space, `\{\\textbf\{([^}]+)\}[^}]*\}\{([^}]+)\}` at index `j`, for a
      match that began at `i`. */
  function ProjectHeadingArgs(s: string, i: nat, j: nat): (r: Option<Match>)
    requires i < j <= |s|
    ensures r.Some? ==> i < r.value.end <= |s| && r.value.start == i
    ensures r.Some? ==> |r.value.groups| == 2 && s[r.value.end - 1] == '}'
  {
    if Occurs(s, "{\\textbf", j) then
      match BraceArgs(s, j + 8, 1)
      case None => None
      case Some(name) =>
        var k := Find(s, "}", name.1);
        if k >= 0 then
          match BraceArgs(s, k + 1, 1)
          case Some(tech) => Some(Match(i, tech.1, name.0 + tech.0))
          case None => None
        else None
    else None
  }

  /** `\\textbf\{([^}]+)\}\{:\s*([^}]+)\}` at index `i`. */
  function SkillLineAt(s: string, i: nat): (r: Option<Match>)
    ensures InText(s, i, r)
    ensures r.Some? ==> |r.value.groups| == 2 && s[r.value.end - 1] == '}'
    ensures r.Some? ==> Occurs(s, "\\textbf", i) && i + 7 < |s| && s[i + 7] == '{'
  {
    if Occurs(s, "\\textbf", i) then
      match BraceArgs(s, i + 7, 1)
      case None => None
      case Some(bold) =>
        match SkillItemsEnd(s, bold.1)
        case Some(k) => Some(Match(i, k + 1, bold.0 + [SkillItemsGroup(s, bold.1 + 2, k)]))
        case None => None
    else None
  }

  /** The closing `}` of the part `\{:\s*([^}]+)\}` of the skills pattern at
      index `e`: the first `}` after the colon, when something lies between. */
  function SkillItemsEnd(s: string, e: nat): (r: Option<nat>)
    ensures r.Some? ==> e + 2 < r.value < |s| && s[r.value] == '}'
  {
    if Occurs(s, "{:", e) then
      var k := Find(s, "}", e + 2);
      CloseBraceAtFind(s, e + 2);
      if k > e + 2 then Some(k) else None
    else None
  }

  /** `\\textbf\{([^}]+)\}` at index `i`. */
  function BoldLabelAt(s: string, i: nat): (r: Option<Match>)
    ensures InText(s, i, r)
  {
    if Occurs(s, "\\textbf", i) then
      match BraceArgs(s, i + 7, 1)
      case Some(args) => Some(Match(i, args.1, args.0))
      case None => None
    else None
  }

  /** `\\resumeItem\{((?:[^{}]|\{[^{}]*\})*)\}` at index `i`. */
  function ResumeItemAt(s: string, i: nat): (r: Option<Match>)
    ensures InText(s, i, r)
  {
    if Occurs(s, "\\resumeItem{", i) then
      var k := ItemArgEnd(s, i + 12);
      if k >= 0 then Some(Match(i, k + 1, [s[i + 12..k]])) else None
    else None
  }

  /** The match of `p` that starts exactly at index `i`, if any. */
  function MatchAt(p: Pattern, s: string, i: nat): (r: Option<Match>)
    ensures r.Some? ==> r.value.start == i < r.value.end <= |s|
  {
    match p
    case DocumentClass => DocumentClassAt(s, i)
    case SectionHeader => SectionAt(s, i)
    case Subheading => SubheadingAt(s, i)
    case ProjectHeading => ProjectHeadingAt(s, i)
    case SkillLine => SkillLineAt(s, i)
    case BoldLabel => BoldLabelAt(s, i)
    case ResumeItem => ResumeItemAt(s, i)
  }

  /** The shape every match of `p` at `i` has: the pattern's number of groups,
      its leading literal at `i` and a closing brace as its last character. */
  predicate Shaped(p: Pattern, s: string, i: nat, r: Option<Match>) {
    r.Some? ==>
      && 0 < r.value.end <= |s|
      && |r.value.groups| == GroupCount(p)
      && Occurs(s, Lead(p), i)
      && s[r.value.end - 1] == '}'
  }

  lemma DocumentClassAtShape(s: string, i: nat)
    ensures Shaped(DocumentClass, s, i, DocumentClassAt(s, i))
  {
    if DocumentClassAt(s, i).Some? { assert s[i..i + 15] == s[i..i + 14] + [s[i + 14]]; }
  }

  lemma SectionAtShape(s: string, i: nat)
    ensures Shaped(SectionHeader, s, i, SectionAt(s, i))
  {
    if SectionAt(s, i).Some? { assert s[i..i + 9] == s[i..i + 8] + [s[i + 8]]; }
  }

  lemma SubheadingAtShape(s: string, i: nat)
    ensures Shaped(Subheading, s, i, SubheadingAt(s, i))
  {
    if SubheadingAt(s, i).Some? {
      var args := BraceArgs(s, SkipSpace(s, i + 17), 4).value;
      assert SubheadingAt(s, i) == Some(Match(i, args.1, args.0));
    }
  }

  lemma ProjectHeadingAtShape(s: string, i: nat)
    ensures Shaped(ProjectHeading, s, i, ProjectHeadingAt(s, i))
  {
  }

  lemma SkillLineAtShape(s: string, i: nat)
    ensures Shaped(SkillLine, s, i, SkillLineAt(s, i))
  {
    if SkillLineAt(s, i).Some? { assert s[i..i + 8] == s[i..i + 7] + [s[i + 7]]; }
  }

  lemma BoldLabelAtShape(s: string, i: nat)
    ensures Shaped(BoldLabel, s, i, BoldLabelAt(s, i))
  {
    if BoldLabelAt(s, i).Some? { assert s[i..i + 8] == s[i..i + 7] + [s[i + 7]]; }
  }

  lemma ResumeItemAtShape(s: string, i: nat)
    ensures Shaped(ResumeItem, s, i, ResumeItemAt(s, i))
  {
    
  }

  // ---------------------------------------------------------------------------
  // Bullet matches inside a slice of a text
  // ---------------------------------------------------------------------------

  /** A brace found inside the slice `t[a..e]` is the first brace of `t` from
      the same place. */
  lemma {:induction false} NextBraceIn(t: string, a: nat, e: nat, j: nat)
    requires a <= e <= |t| && NextBrace(t[a..e], j) >= 0
    ensures NextBrace(t, a + j) == a + NextBrace(t[a..e], j)
    decreases e - a - j
  {
    if !IsBrace(t[a..e][j]) {
      NextBraceIn(t, a, e, j + 1);
    }
  }

  /** The closing brace of a bullet argument found inside the slice `t[a..e]`
      is found at the same place of `t`. */
  lemma {:induction false} ItemArgEndIn(t: string, a: nat, e: nat, j: nat)
    requires a <= e <= |t| && ItemArgEnd(t[a..e], j) >= 0
    ensures ItemArgEnd(t, a + j) == a + ItemArgEnd(t[a..e], j)
    decreases e - a - j
  {
    var c := t[a..e];
    if c[j] == '{' {
      var k := GroupIn(t, a, e, j);
      ItemArgEndIn(t, a, e, k + 1);
    } else if c[j] != '}' {
      PlainIn(t, a, e, j);
      ItemArgEndIn(t, a, e, j + 1);
    }
  }

  /** A `{…}` group of a bullet argument inside a slice, closed at `k`. */
  lemma GroupIn(t: string, a: nat, e: nat, j: nat) returns (k: nat)
    requires a <= e <= |t| && j < e - a && t[a..e][j] == '{' && ItemArgEnd(t[a..e], j) >= 0
    ensures j < k < e - a && k == NextBrace(t[a..e], j + 1)
    ensures ItemArgEnd(t[a..e], j) == ItemArgEnd(t[a..e], k + 1)
    ensures ItemArgEnd(t, a + j) == ItemArgEnd(t, a + k + 1)
  {
    var c := t[a..e];
    k := GroupSkip(c, j);
    NextBraceIn(t, a, e, j + 1);
    assert t[a + j] == c[j] && t[a + k] == c[k];
    var _ := GroupSkip(t, a + j);
  }

  /** `ItemArgEnd` skips a `{…}` group that opens at `j` and closes at `k`. */
  lemma GroupSkip(s: string, j: nat) returns (k: nat)
    requires j < |s| && s[j] == '{' && NextBrace(s, j + 1) >= 0 && s[NextBrace(s, j + 1)] == '}'
    ensures j < k < |s| && k == NextBrace(s, j + 1) && s[k] == '}'
    ensures ItemArgEnd(s, j) == ItemArgEnd(s, k + 1)
  {
    k := NextBrace(s, j + 1);
  }

  /** A character other than a brace of a bullet argument inside a slice. */
  lemma PlainIn(t: string, a: nat, e: nat, j: nat)
    requires a <= e <= |t| && j < e - a && !IsBrace(t[a..e][j])
    ensures ItemArgEnd(t[a..e], j) == ItemArgEnd(t[a..e], j + 1)
    ensures ItemArgEnd(t, a + j) == ItemArgEnd(t, a + j + 1)
  {
  }

  /** A `\resumeItem{…}` match of the slice `t[a..e]` is a match of `t`,
      shifted by `a`, with the same argument. */
  lemma ResumeItemAtIn(t: string, a: nat, e: nat, i: nat)
    requires a <= e <= |t| && ResumeItemAt(t[a..e], i).Some?
    ensures var m := ResumeItemAt(t[a..e], i).value;
      ResumeItemAt(t, a + i) == Some(Match(a + i, a + m.end, m.groups))
  {
    var c := t[a..e];
    var k := ItemArgEnd(c, i + 12);
    OccursInSlice(t, a, e, "\\resumeItem{", i);
    ItemArgEndIn(t, a, e, i + 12);
    SliceOfSlice(t, a, e, i + 12, k);
  }

  /** A match has the pattern's number of groups, begins with the pattern's
      leading literal and ends with a closing brace. */
  lemma MatchAtShape(p: Pattern, s: string, i: nat)
    ensures Shaped(p, s, i, MatchAt(p, s, i))
  {
    match p
    case DocumentClass => DocumentClassAtShape(s, i);
    case SectionHeader => SectionAtShape(s, i);
    case Subheading => SubheadingAtShape(s, i);
    case ProjectHeading => ProjectHeadingAtShape(s, i);
    case SkillLine => SkillLineAtShape(s, i);
    case BoldLabel => BoldLabelAtShape(s, i);
    case ResumeItem => ResumeItemAtShape(s, i);
  }

  // ---------------------------------------------------------------------------
  // re.search and re.finditer
  // ---------------------------------------------------------------------------

  /** The leftmost match of `p` starting at or after `from`. */
  function Search(p: Pattern, s: string, from: nat): (r: Option<Match>)
    ensures r.Some? ==> from <= r.value.start < r.value.end <= |s|
    decreases |s| - from
  {
    if from > |s| then None
    else if MatchAt(p, s, from).Some? then MatchAt(p, s, from)
    else Search(p, s, from + 1)
  }

  /** `Search` returns the leftmost match: a match at its start, and none
      between `from` and there (none at all when it returns nothing). */
  lemma {:induction false} SearchLeftmost(p: Pattern, s: string, from: nat)
    ensures var r := Search(p, s, from);
      r.Some? ==> MatchAt(p, s, r.value.start) == r && NoMatchIn(p, s, from, r.value.start)
    ensures Search(p, s, from).None? ==> NoMatchFrom(p, s, from)
    decreases |s| - from
  {
    if from <= |s| && MatchAt(p, s, from).None? {
      SearchLeftmost(p, s, from + 1);
      var r := Search(p, s, from + 1);
      if r.Some? {
        NoMatchInExtend(p, s, from, r.value.start);
      } else {
        NoMatchFromExtend(p, s, from);
      }
    } else if from > |s| {
      NoMatchBeyond(p, s, from);
    }
  }

  lemma NoMatchInExtend(p: Pattern, s: string, lo: nat, hi: nat)
    requires MatchAt(p, s, lo).None? && NoMatchIn(p, s, lo + 1, hi)
    ensures NoMatchIn(p, s, lo, hi)
  {
  }

  lemma NoMatchFromExtend(p: Pattern, s: string, lo: nat)
    requires MatchAt(p, s, lo).None? && NoMatchFrom(p, s, lo + 1)
    ensures NoMatchFrom(p, s, lo)
  {
  }

  lemma NoMatchBeyond(p: Pattern, s: string, lo: nat)
    requires lo > |s|
    ensures NoMatchFrom(p, s, lo)
  {
  }

  /** Python's `list(re.finditer(p, s[from:]))` in the coordinates of `s`: after
      each match the search resumes where that match ended. */
  function FindIter(p: Pattern, s: string, from: nat): (ms: seq<Match>)
    decreases |s| - from
  {
    match Search(p, s, from)
    case None => []
    case Some(m) => [m] + FindIter(p, s, m.end)
  }

  /** Every element of `finditer` is a match of `p` at its start, at or after
      `from`. */
  lemma {:induction false} FindIterSound(p: Pattern, s: string, from: nat)
    ensures var ms := FindIter(p, s, from);
      forall k :: 0 <= k < |ms| ==> from <= ms[k].start && MatchAt(p, s, ms[k].start) == Some(ms[k])
    decreases |s| - from
  {
    var r := Search(p, s, from);
    SearchLeftmost(p, s, from);
    FindIterStep(p, s, from);
    if r.Some? {
      var rest := FindIter(p, s, r.value.end);
      var ms := [r.value] + rest;
      FindIterSound(p, s, r.value.end);
      forall k | 0 <= k < |ms| ensures from <= ms[k].start && MatchAt(p, s, ms[k].start) == Some(ms[k]) {
        if k > 0 { assert ms[k] == rest[k - 1]; }
      }
    }
  }

  /** The matches of `finditer` are in document order and do not overlap. */
  lemma {:induction false} FindIterOrdered(p: Pattern, s: string, from: nat)
    ensures var ms := FindIter(p, s, from);
      forall k :: 0 <= k < |ms| ==> from <= ms[k].start < ms[k].end <= |s|
    ensures var ms := FindIter(p, s, from);
      forall k :: 0 <= k < |ms| - 1 ==> ms[k].end <= ms[k + 1].start
    decreases |s| - from
  {
    var r := Search(p, s, from);
    FindIterStep(p, s, from);
    if r.Some? {
      var rest := FindIter(p, s, r.value.end);
      var ms := [r.value] + rest;
      FindIterOrdered(p, s, r.value.end);
      forall k | 0 <= k < |ms| ensures from <= ms[k].start < ms[k].end <= |s| {
        if k > 0 { assert ms[k] == rest[k - 1]; }
      }
      forall k | 0 <= k < |ms| - 1 ensures ms[k].end <= ms[k + 1].start {
        assert ms[k + 1] == rest[k];
        if k > 0 { assert ms[k] == rest[k - 1]; }
      }
    }
  }

  /** No match of `p` starts in `[lo, hi)`. */
  predicate NoMatchIn(p: Pattern, s: string, lo: nat, hi: nat) {
    forall j :: lo <= j < hi ==> MatchAt(p, s, j).None?
  }

  /** No match of `p` starts at or after `lo`. */
  ghost predicate NoMatchFrom(p: Pattern, s: string, lo: nat) {
    forall j :: lo <= j ==> MatchAt(p, s, j).None?
  }

  /** `finditer` misses no match before its first one (or anywhere when it
      finds none). */
  lemma FindIterFirst(p: Pattern, s: string, from: nat)
    ensures FindIter(p, s, from) == [] ==> NoMatchFrom(p, s, from)
    ensures FindIter(p, s, from) != [] ==> NoMatchIn(p, s, from, FindIter(p, s, from)[0].start)
  {
    SearchLeftmost(p, s, from);
  }

  /** One step of `finditer`: the first match, then the matches after it. */
  lemma FindIterStep(p: Pattern, s: string, from: nat)
    ensures Search(p, s, from).None? ==> FindIter(p, s, from) == []
    ensures Search(p, s, from).Some? ==>
      FindIter(p, s, from) == [Search(p, s, from).value] + FindIter(p, s, Search(p, s, from).value.end)
  {
  }

  /** `finditer` misses no match after its last one. */
  lemma {:induction false} FindIterLast(p: Pattern, s: string, from: nat)
    ensures var ms := FindIter(p, s, from); ms != [] ==> NoMatchFrom(p, s, ms[|ms| - 1].end)
    decreases |s| - from
  {
    var r := Search(p, s, from);
    FindIterStep(p, s, from);
    if r.Some? {
      var rest := FindIter(p, s, r.value.end);
      FindIterFirst(p, s, r.value.end);
      if rest != [] {
        FindIterLast(p, s, r.value.end);
      }
    }
  }

  /** `finditer` misses no match between two consecutive ones. */
  lemma {:induction false} FindIterBetween(p: Pattern, s: string, from: nat)
    ensures var ms := FindIter(p, s, from);
      forall k :: 0 <= k < |ms| - 1 ==> NoMatchIn(p, s, ms[k].end, ms[k + 1].start)
    decreases |s| - from
  {
    var r := Search(p, s, from);
    FindIterStep(p, s, from);
    if r.Some? {
      var rest := FindIter(p, s, r.value.end);
      var ms := [r.value] + rest;
      if rest != [] {
        FindIterFirst(p, s, r.value.end);
        FindIterBetween(p, s, r.value.end);
        forall k | 1 <= k < |ms| - 1 ensures NoMatchIn(p, s, ms[k].end, ms[k + 1].start) {
          assert ms[k] == rest[k - 1] && ms[k + 1] == rest[k];
        }
      }
    }
  }
}
