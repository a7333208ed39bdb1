/** The edits addressed by id: `LaTeXResumeParser.apply_edit_by_id`, which
    removes or rewrites the element at the span recorded for an id, and
    `add_bullet_to_element`, which inserts a bullet in front of the list end
    inside a parent's span. Both are functions of a text and an id map: they
    return a new text and change neither. */
module IdEdit {
  import opened Wrappers
  import opened PyStr
  import opened Regex
  import opened ResumeTree
  import opened ParseSpec

  /** The two `ValueError`s: an id the map does not hold, and a parent span
      holding no list end. */
  datatype EditError = ElementNotFound(id: string) | NoBulletList(id: string)

  const ItemOpen: string := "\\resumeItem{"
  const BoldOpen: string := "\\textbf{"

  /** `text[:start] + middle + text[end:]`, with Python's clamping. */
  function Splice(text: string, sp: Span, middle: string): (r: string)
    ensures sp.start <= sp.end ==> |r| == |text| - |PySlice(text, sp.start, sp.end)| + |middle|
  {
    PyPrefix(text, sp.start) + middle + PySuffix(text, sp.end)
  }

  /** A splice keeps everything in front of the span and everything after it,
      and splicing the old text of the span back in at the same place
      restores the original. */
  lemma SpliceUndo(text: string, sp: Span, middle: string)
    requires sp.start <= sp.end
    ensures var r, at := Splice(text, sp, middle), Min(sp.start, |text|);
      && r[..at] == text[..at]
      && r[at..at + |middle|] == middle
      && r[at + |middle|..] == PySuffix(text, sp.end)
      && Splice(r, Span(at, at + |middle|), PySlice(text, sp.start, sp.end)) == text
  {
    var r, at := Splice(text, sp, middle), Min(sp.start, |text|);
    assert r[..at] == text[..at];
    assert r[at..at + |middle|] == middle;
    assert r[at + |middle|..] == PySuffix(text, sp.end);
    assert PyPrefix(r, at) == text[..at];
    assert PySuffix(r, at + |middle|) == PySuffix(text, sp.end);
    SliceDecompose(text, sp.start, sp.end);
  }

  /** The element that replaces a modified one, chosen by what the element's
      old text holds: a bullet is rewritten as a bullet, a skills line keeps
      its bold label, anything else becomes the bare new text. */
  function Rewrap(original: string, newText: string): string {
    if Contains(original, ItemOpen) then ItemOpen + newText + "}"
    else if Contains(original, BoldOpen) then
      match Search(BoldLabel, original, 0)
      case Some(m) => BoldOpen + G(m, 0) + "}{: " + newText + "}"
      case None => newText
    else newText
  }

  /** `apply_edit_by_id(element_id, action, new_text)` on the text and id map
      it reads: an unknown id is an error, `remove` cuts the span out,
      `modify` replaces it by the rewrapped new text, and any other action
      returns the text as it is. */
  function ApplyEdit(text: string, positions: map<string, Span>, id: string, action: string,
                     newText: string): (r: Result<string, EditError>)
    ensures r.Failure? <==> id !in positions
    ensures r.Failure? ==> r.error == ElementNotFound(id)
    ensures r.Success? && action != "remove" && action != "modify" ==> r.value == text
  {
    if id !in positions then Failure(ElementNotFound(id))
    else
      var sp := positions[id];
      if action == "remove" then Success(Splice(text, sp, ""))
      else if action == "modify" then Success(Splice(text, sp, Rewrap(PySlice(text, sp.start, sp.end), newText)))
      else Success(text)
  }

  /** `remove` deletes exactly the span's text: the text in front of it and
      after it is kept, and putting the removed text back restores the
      input. */
  lemma RemoveRestores(text: string, positions: map<string, Span>, id: string, newText: string)
    requires id in positions && positions[id].start <= positions[id].end
    ensures var sp, at := positions[id], Min(positions[id].start, |text|);
      var r := ApplyEdit(text, positions, id, "remove", newText).value;
      && |r| == |text| - |PySlice(text, sp.start, sp.end)|
      && r == text[..at] + PySuffix(text, sp.end)
      && r[..at] + PySlice(text, sp.start, sp.end) + r[at..] == text
  {
    var sp, at := positions[id], Min(positions[id].start, |text|);
    SpliceUndo(text, sp, "");
    var r := Splice(text, sp, "");
    assert PySlice(r, at, at) == "";
  }

  /** `modify` keeps the text in front of the span and after it, and puts the
      rewrapped element in between. */
  lemma ModifyFrame(text: string, positions: map<string, Span>, id: string, newText: string)
    requires id in positions && positions[id].start <= positions[id].end
    ensures var sp, at := positions[id], Min(positions[id].start, |text|);
      var w := Rewrap(PySlice(text, sp.start, sp.end), newText);
      var r := ApplyEdit(text, positions, id, "modify", newText).value;
      && r[..at] == text[..at]
      && r[at..at + |w|] == w
      && r[at + |w|..] == PySuffix(text, sp.end)
  {
    var sp := positions[id];
    SpliceUndo(text, sp, Rewrap(PySlice(text, sp.start, sp.end), newText));
  }

  // ---------------------------------------------------------------------------
  // What a rewritten element reads back as
  // ---------------------------------------------------------------------------

  /** The bullet scanner reads a brace-free run followed by `}` as the
      argument. */
  lemma {:induction false} ItemArgEndPlain(s: string, j: nat, k: nat)
    requires j <= k < |s| && s[k] == '}'
    requires forall i :: j <= i < k ==> !IsBrace(s[i])
    ensures ItemArgEnd(s, j) == k
    decreases k - j
  {
    if j < k {
      ItemArgEndPlain(s, j + 1, k);
    }
  }

  /** A rewritten bullet is read back by the bullet pattern at the same place,
      with exactly the new text as its argument, when that text holds no
      brace. */
  lemma ModifiedBulletReparses(text: string, positions: map<string, Span>, id: string, newText: string)
    requires id in positions && positions[id].start <= positions[id].end
    requires Contains(PySlice(text, positions[id].start, positions[id].end), ItemOpen)
    requires forall i :: 0 <= i < |newText| ==> !IsBrace(newText[i])
    ensures var at := Min(positions[id].start, |text|);
      var r := ApplyEdit(text, positions, id, "modify", newText).value;
      ResumeItemAt(r, at) == Some(Match(at, at + |newText| + 13, [newText]))
  {
    var sp, at := positions[id], Min(positions[id].start, |text|);
    var r := ApplyEdit(text, positions, id, "modify", newText).value;
    ModifyFrame(text, positions, id, newText);
    assert Rewrap(PySlice(text, sp.start, sp.end), newText) == ItemOpen + newText + "}";
    BulletReadBack(r, at, newText);
  }

  /** A bullet written out at `at` is read back there by the bullet pattern. */
  lemma BulletReadBack(r: string, at: nat, newText: string)
    requires forall i :: 0 <= i < |newText| ==> !IsBrace(newText[i])
    requires at + |ItemOpen + newText + "}"| <= |r| && r[at..at + |ItemOpen + newText + "}"|] == ItemOpen + newText + "}"
    ensures ResumeItemAt(r, at) == Some(Match(at, at + |newText| + 13, [newText]))
  {
    var w := ItemOpen + newText + "}";
    var rw := r[at..at + |w|];
    assert r[at..at + 12] == ItemOpen by {
      assert r[at..at + 12] == rw[..12] == w[..12];
    }
    assert r[at + 12..at + 12 + |newText|] == newText by {
      assert r[at + 12..at + 12 + |newText|] == rw[12..12 + |newText|] == w[12..12 + |newText|];
    }
    assert r[at + 12 + |newText|] == rw[12 + |newText|] == w[12 + |newText|];
    forall i | at + 12 <= i < at + 12 + |newText| ensures !IsBrace(r[i]) {
      assert r[i] == newText[i - at - 12];
    }
    ItemArgEndPlain(r, at + 12, at + 12 + |newText|);
  }

  /** A single brace argument is the text up to the first `}`. */
  lemma OneBraceArg(s: string, p: nat)
    requires p <= |s| && BraceArgs(s, p, 1).Some?
    ensures var k := Find(s, "}", p + 1);
      p + 1 < k < |s| && BraceArgs(s, p, 1) == Some(([s[p + 1..k]], k + 1))
  {
    var k := Find(s, "}", p + 1);
    assert s[p] == '{';
    assert BraceArgs(s, k + 1, 0) == Some(([], k + 1));
    assert [s[p + 1..k]] + [] == [s[p + 1..k]];
  }

  /** The group of a bold-label match is the text between its braces. */
  lemma BoldLabelGroup(s: string, i: nat)
    requires BoldLabelAt(s, i).Some?
    ensures var m := BoldLabelAt(s, i).value;
      && i + 8 < m.end - 1 && G(m, 0) == s[i + 8..m.end - 1]
      && '}' !in G(m, 0)
  {
    OneBraceArg(s, i + 7);
    var k := Find(s, "}", i + 8);
    FindSpec(s, "}", i + 8);
    forall j | i + 8 <= j < k ensures s[j] != '}' {
      assert !Occurs(s, "}", j);
      assert s[j..j + 1] == [s[j]];
    }
  }

  /** The bold label of `\textbf{label}…` with a brace-free, non-empty label
      is found at index 0 and is exactly that label. */
  lemma BoldLabelOfWrapped(lbl: string, rest: string)
    requires |lbl| > 0 && '}' !in lbl
    ensures Search(BoldLabel, BoldOpen + lbl + "}" + rest, 0)
         == Some(Match(0, |lbl| + 9, [lbl]))
  {
    var w := BoldOpen + lbl + "}" + rest;
    assert w[..7] == "\\textbf";
    assert Occurs(w, "\\textbf", 0);
    assert w[7] == '{';
    forall i | 8 <= i < 8 + |lbl| ensures w[i] != '}' {
      assert w[i] == lbl[i - 8];
    }
    FindCharAt(w, '}', 8, 8 + |lbl|);
    assert w[8..8 + |lbl|] == lbl;
    assert BraceArgs(w, 7, 1).Some? by {
      assert BraceArgs(w, 9 + |lbl|, 0) == Some(([], 9 + |lbl|));
    }
    OneBraceArg(w, 7);
    assert BoldLabelAt(w, 0) == Some(Match(0, |lbl| + 9, [lbl]));
  }

  /** Wrapping a label and a text, neither of which opens a bullet, in a
      bold-label line opens no bullet either: the opener holds no `}`, so it
      cannot straddle the closing braces, and no other backslash is added. */
  lemma NoItemOpenInWrapped(lbl: string, newText: string)
    requires !Contains(lbl, ItemOpen) && !Contains(newText, ItemOpen)
    ensures !Contains(BoldOpen + lbl + "}{: " + newText + "}", ItemOpen)
  {
    ContainsSpec("", ItemOpen);
    NoOccurAfterPrefix("textbf{", lbl, ItemOpen);
    var head := "textbf{" + lbl;
    var w0 := "\\" + head;
    ContainsSpec(head, ItemOpen);
    forall j | 0 <= j ensures !Occurs(w0, ItemOpen, j) {
      if j + 12 > |w0| {
      } else if j == 0 {
        assert w0[0..12][1] == 't';
      } else {
        assert head[j - 1..j - 1 + 12] == w0[j..j + 12];
        assert !Occurs(head, ItemOpen, j - 1);
      }
    }
    ContainsSpec(w0, ItemOpen);
    assert BoldOpen + lbl + "}{: " + newText + "}" == ("\\" + head) + ['}'] + ("{: " + newText + "}");
    assert "{: " + newText + "}" == ("{: " + newText) + ['}'] + "";
    NoOccurAfterPrefix("{: ", newText, ItemOpen);
    NoOccurAroundChar("{: " + newText, '}', "", ItemOpen);
    NoOccurAroundChar("\\" + head, '}', "{: " + newText + "}", ItemOpen);
  }

  /** The label of a bold-label match holds no bullet opener when the text it
      came from holds none. */
  lemma LabelWithoutItemOpen(original: string)
    requires !Contains(original, ItemOpen) && Search(BoldLabel, original, 0).Some?
    ensures var m := Search(BoldLabel, original, 0).value;
      |G(m, 0)| > 0 && '}' !in G(m, 0) && !Contains(G(m, 0), ItemOpen)
  {
    var m := Search(BoldLabel, original, 0).value;
    SearchLeftmost(BoldLabel, original, 0);
    assert BoldLabelAt(original, m.start) == Some(m);
    BoldLabelGroup(original, m.start);
    if Contains(G(m, 0), ItemOpen) {
      ContainsInSlice(original, m.start + 8, m.end - 1, ItemOpen);
    }
  }

  /** Rewriting an element twice is rewriting it once with the second text,
      provided the first text does not itself open a bullet or a bold label:
      the first rewrite keeps whatever decides the second. */
  lemma RewrapTwice(original: string, first: string, second: string)
    requires !Contains(first, ItemOpen) && !Contains(first, BoldOpen)
    ensures Rewrap(Rewrap(original, first), second) == Rewrap(original, second)
  {
    if !Contains(original, ItemOpen) && Contains(original, BoldOpen) {
      match Search(BoldLabel, original, 0)
      case Some(m) =>
        LabelWithoutItemOpen(original);
        var lbl := G(m, 0);
        var w := BoldOpen + lbl + "}{: " + first + "}";
        NoItemOpenInWrapped(lbl, first);
        assert w == BoldOpen + lbl + "}" + ("{: " + first + "}");
        BoldLabelOfWrapped(lbl, "{: " + first + "}");
        assert w[..8] == BoldOpen;
        ContainsSpec(w, BoldOpen);
        assert Occurs(w, BoldOpen, 0);
      case None =>
    }
  }

  /** Modifying an element and then modifying it again at the span the first
      edit gave it yields the same text as modifying it once with the second
      text (provided the first text opens no bullet or bold label). */
  lemma ModifyTwice(text: string, positions: map<string, Span>, id: string, first: string, second: string)
    requires id in positions && positions[id].start <= positions[id].end
    requires !Contains(first, ItemOpen) && !Contains(first, BoldOpen)
    ensures var sp, at := positions[id], Min(positions[id].start, |text|);
      var w := Rewrap(PySlice(text, sp.start, sp.end), first);
      var once := ApplyEdit(text, positions, id, "modify", first).value;
      ApplyEdit(once, positions[id := Span(at, at + |w|)], id, "modify", second)
        == ApplyEdit(text, positions, id, "modify", second)
  {
    var sp, at := positions[id], Min(positions[id].start, |text|);
    var original := PySlice(text, sp.start, sp.end);
    var w := Rewrap(original, first);
    var once := ApplyEdit(text, positions, id, "modify", first).value;
    ModifyFrame(text, positions, id, first);
    assert PySlice(once, at, at + |w|) == w;
    RewrapTwice(original, first, second);
    assert PyPrefix(once, at) == PyPrefix(text, sp.start);
    assert PySuffix(once, at + |w|) == PySuffix(text, sp.end);
  }

  // ---------------------------------------------------------------------------
  // add_bullet_to_element
  // ---------------------------------------------------------------------------

  /** The text inserted by `add_bullet_to_element`: the new bullet on its own
      indented line, then the indentation of the list end. */
  function NewBullet(bulletText: string): string {
    "\n        " + ItemOpen + bulletText + "}" + "\n      "
  }

  /** `add_bullet_to_element(latex_content, parent_id, bullet_text, parser)`:
      the parent's span is taken from the id map and cut out of the given
      text; the new bullet goes in front of the first list end inside it. */
  function AddBullet(latex: string, positions: map<string, Span>, parentId: string,
                     bulletText: string): (r: Result<string, EditError>)
    ensures parentId !in positions ==> r == Failure(ElementNotFound(parentId))
    ensures parentId in positions ==>
              var sp := positions[parentId];
              (r.Failure? <==> !Contains(PySlice(latex, sp.start, sp.end), ListEnd))
    ensures r.Failure? ==> r.error.id == parentId
  {
    if parentId !in positions then Failure(ElementNotFound(parentId))
    else
      var sp := positions[parentId];
      var pos := Find(PySlice(latex, sp.start, sp.end), ListEnd, 0);
      if pos < 0 then Failure(NoBulletList(parentId))
      else
        var at := sp.start + pos;
        Success(PyPrefix(latex, at) + NewBullet(bulletText) + PySuffix(latex, at))
  }

  /** Where `add_bullet_to_element` inserts: at the first list end inside the
      parent's span, which lies wholly inside the text and the span. */
  lemma AddBulletPoint(latex: string, sp: Span)
    requires Contains(PySlice(latex, sp.start, sp.end), ListEnd)
    ensures var at := sp.start + Find(PySlice(latex, sp.start, sp.end), ListEnd, 0);
      && sp.start <= at && at + |ListEnd| <= Min(sp.end, |latex|)
      && Occurs(latex, ListEnd, at)
      && (forall j :: sp.start <= j < at ==> !Occurs(latex, ListEnd, j))
  {
    var parent := PySlice(latex, sp.start, sp.end);
    var pos := Find(parent, ListEnd, 0);
    FindSpec(parent, ListEnd, 0);
    var at := sp.start + pos;
    var hi := Min(sp.end, |latex|);
    assert parent == latex[sp.start..hi];
    OccursInSlice(latex, sp.start, hi, ListEnd, pos);
    forall j | sp.start <= j < at ensures !Occurs(latex, ListEnd, j) {
      assert !Occurs(parent, ListEnd, j - sp.start);
      SliceOfSlice(latex, sp.start, hi, j - sp.start, j - sp.start + |ListEnd|);
    }
  }

  /** On success the new bullet is inserted in front of the first list end
      of the parent's span: the text before and after the insertion point is
      kept, the list end follows the new bullet directly, and cutting the
      bullet back out restores the input. */
  lemma AddBulletInserts(latex: string, positions: map<string, Span>, parentId: string, bulletText: string)
    requires AddBullet(latex, positions, parentId, bulletText).Success?
    ensures var sp := positions[parentId];
      var at := sp.start + Find(PySlice(latex, sp.start, sp.end), ListEnd, 0);
      var r, nb := AddBullet(latex, positions, parentId, bulletText).value, NewBullet(bulletText);
      && sp.start <= at && at + |ListEnd| <= Min(sp.end, |latex|)
      && (forall j :: sp.start <= j < at ==> !Occurs(latex, ListEnd, j))
      && r == latex[..at] + nb + latex[at..]
      && Occurs(r, ListEnd, at + |nb|)
      && r[..at] + r[at + |nb|..] == latex
  {
    var sp := positions[parentId];
    AddBulletPoint(latex, sp);
    var at := sp.start + Find(PySlice(latex, sp.start, sp.end), ListEnd, 0);
    var nb := NewBullet(bulletText);
    assert AddBullet(latex, positions, parentId, bulletText).value
        == PyPrefix(latex, at) + nb + PySuffix(latex, at);
    InsertBefore(latex, at, nb, ListEnd);
  }

  /** Inserting `w` at `at` keeps both sides, moves an occurrence at `at`
      behind `w`, and cutting `w` back out restores the input. */
  lemma InsertBefore(s: string, at: nat, w: string, pat: string)
    requires Occurs(s, pat, at)
    ensures var r := PyPrefix(s, at) + w + PySuffix(s, at);
      && r == s[..at] + w + s[at..]
      && Occurs(r, pat, at + |w|)
      && r[..at] + r[at + |w|..] == s
  {
    var r := s[..at] + w + s[at..];
    assert r[..at] == s[..at];
    assert r[at + |w|..] == s[at..];
    assert r[at + |w|..at + |w| + |pat|] == s[at..at + |pat|];
  }

  /** The part of a section's text that a parse records as an experience or
      project entry holds no list end, provided its heading holds none: the
      span stops where the first list end after the heading begins, or at the
      heading's end, and a list end cannot straddle the heading's closing
      brace. */
  lemma EntryTextLacksListEnd(content: string, m: Match)
    requires m.start < m.end <= |content| && content[m.end - 1] == '}'
    requires !Contains(content[m.start..m.end], ListEnd)
    ensures m.start <= EntryEnd(content, m.end) <= |content|
    ensures !Contains(content[m.start..EntryEnd(content, m.end)], ListEnd)
  {
    var e := EntryEnd(content, m.end);
    FindSpec(content, ListEnd, m.end);
    var slice := content[m.start..e];
    forall j | 0 <= j ensures !Occurs(slice, ListEnd, j) {
      if j + |ListEnd| <= |slice| {
        SliceOfSlice(content, m.start, e, j, j + |ListEnd|);
        NoListEndInEntryAt(content, m, m.start + j);
      }
    }
    ContainsSpec(slice, ListEnd);
  }

  /** One position of `EntryTextLacksListEnd`. */
  lemma NoListEndInEntryAt(content: string, m: Match, c: nat)
    requires m.start < m.end <= |content| && content[m.end - 1] == '}'
    requires !Contains(content[m.start..m.end], ListEnd)
    requires m.start <= c && c + |ListEnd| <= EntryEnd(content, m.end) <= |content|
    ensures !Occurs(content, ListEnd, c)
  {
    if c >= m.end {
      FindSpec(content, ListEnd, m.end);
    } else if c + |ListEnd| <= m.end {
      NoListEndInHeading(content, m, c);
    } else {
      NoListEndAcrossBrace(content, m.end - 1, c);
    }
  }

  lemma NoListEndInHeading(content: string, m: Match, c: nat)
    requires m.start <= c && c + |ListEnd| <= m.end <= |content|
    requires !Contains(content[m.start..m.end], ListEnd)
    ensures !Occurs(content, ListEnd, c)
  {
    ContainsSpec(content[m.start..m.end], ListEnd);
    SliceOfSlice(content, m.start, m.end, c - m.start, c - m.start + |ListEnd|);
    assert !Occurs(content[m.start..m.end], ListEnd, c - m.start);
  }

  /** The list end holds no closing brace, so no occurrence covers one. */
  lemma NoListEndAcrossBrace(content: string, k: nat, c: nat)
    requires c <= k < c + |ListEnd| && k < |content| && content[k] == '}'
    ensures !Occurs(content, ListEnd, c)
  {
    if c + |ListEnd| <= |content| {
      assert content[c..c + |ListEnd|][k - c] == '}';
    }
  }

  /** The span a parse records for an experience or project entry (see
      `ParseSpec.JobOf` and `ParseSpec.ProjectOf`) never holds a list end
      when the heading holds none, so adding a bullet to a freshly parsed
      entry always takes the "no bullet list" error path. The section text
      `content` sits at offset `base` of the document and `m` is the entry's
      heading match in it, which ends with a closing brace. */
  lemma AddBulletToFreshEntryFails(text: string, content: string, base: nat, m: Match,
                                   positions: map<string, Span>, id: string, bulletText: string)
    requires base + |content| <= |text| && text[base..base + |content|] == content
    requires m.start < m.end <= |content| && content[m.end - 1] == '}'
    requires !Contains(content[m.start..m.end], ListEnd)
    requires id in positions && positions[id] == Span(base + m.start, base + EntryEnd(content, m.end))
    ensures AddBullet(text, positions, id, bulletText) == Failure(NoBulletList(id))
  {
    EntryTextLacksListEnd(content, m);
    var e := EntryEnd(content, m.end);
    SliceShift(text, base, content, m.start, e);
  }
}
