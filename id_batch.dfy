/** `apply_changes_by_id` of app_v2_parser.py: the approved suggestions are
    applied one after another, in the order given, to the parser's text.
    Each result is written back to the parser's text, but the id map keeps
    the spans of the one parse that built it. */
module IdBatch {
  import opened Wrappers
  import opened PyStr
  import opened ResumeTree
  import opened IdEdit
  import opened Escape
  import opened ParseSpec
  import opened LatexParser

  /** One approved suggestion as the loop reads it; a key that is absent is
      `None`. */
  datatype IdSuggestion = IdSuggestion(elementId: Option<string>, action: Option<string>,
                                       suggestedText: Option<string>)

  /** `suggestion['element_id']` and `suggestion['action']` both succeed. */
  predicate WellFormed(s: IdSuggestion) {
    s.elementId.Some? && s.action.Some?
  }

  /** The escaped suggested text, or `""` when it is absent or empty. */
  function SuggestedText(s: IdSuggestion): string {
    if s.suggestedText.Some? && s.suggestedText.value != "" then V2Escape(s.suggestedText.value) else ""
  }

  /** One pass of the loop body. A `ValueError` (an unknown id, or a parent
      without a list end) skips the record and so does an unknown action. */
  function Step(text: string, positions: map<string, Span>, s: IdSuggestion): (r: string)
    requires WellFormed(s)
    ensures s.elementId.value !in positions ==> r == text
    ensures s.action.value !in {"add_to", "modify", "remove"} ==> r == text
    ensures s.action.value == "add_to" && s.elementId.value in positions ==>
              var sp := positions[s.elementId.value];
              !Contains(PySlice(text, sp.start, sp.end), ListEnd) ==> r == text
    ensures s.action.value == "add_to" ==>
              var a := AddBullet(text, positions, s.elementId.value, SuggestedText(s));
              r == if a.Success? then a.value else text
    ensures s.action.value == "modify" ==>
              var e := ApplyEdit(text, positions, s.elementId.value, "modify", SuggestedText(s));
              r == if e.Success? then e.value else text
    ensures s.action.value == "remove" ==>
              var e := ApplyEdit(text, positions, s.elementId.value, "remove", "");
              r == if e.Success? then e.value else text
  {
    var id, t := s.elementId.value, SuggestedText(s);
    var r :=
      if s.action.value == "add_to" then AddBullet(text, positions, id, t)
      else if s.action.value == "modify" then ApplyEdit(text, positions, id, "modify", t)
      else if s.action.value == "remove" then ApplyEdit(text, positions, id, "remove", "")
      else Success(text);
    if r.Success? then r.value else text
  }

  /** The index of the first record lacking `element_id` or `action`, or the
      number of records when there is none. */
  function FirstMalformed(ss: seq<IdSuggestion>): (n: nat)
    ensures n <= |ss|
    ensures forall k :: 0 <= k < n ==> WellFormed(ss[k])
    ensures n < |ss| ==> !WellFormed(ss[n])
    decreases |ss|
  {
    if ss == [] || !WellFormed(ss[0]) then 0 else 1 + FirstMalformed(ss[1..])
  }

  /** Well-formed records applied in order, every one with the same spans. */
  function ApplyInOrder(text: string, positions: map<string, Span>, ss: seq<IdSuggestion>): string
    requires forall k :: 0 <= k < |ss| ==> WellFormed(ss[k])
    decreases |ss|
  {
    if ss == [] then text
    else Step(ApplyInOrder(text, positions, ss[..|ss| - 1]), positions, ss[|ss| - 1])
  }

  /** What `apply_changes_by_id` returns: a missing key raises `KeyError`,
      which the outer handler turns into `None`. */
  function BatchById(text: string, positions: map<string, Span>, ss: seq<IdSuggestion>): (r: Option<string>)
    ensures r.Some? <==> FirstMalformed(ss) == |ss|
    ensures ss == [] ==> r == Some(text)
  {
    if FirstMalformed(ss) == |ss| then Some(ApplyInOrder(text, positions, ss)) else None
  }

  /** The loop. The parser's text follows every applied record, also when a
      later record is malformed and the call gives `None`; its id map is
      never recomputed. */
  method ApplyChangesById(parser: LaTeXResumeParser, approved: seq<IdSuggestion>) returns (r: Option<string>)
    modifies parser`latexContent
    ensures r == BatchById(old(parser.latexContent), parser.idToPosition, approved)
    ensures parser.latexContent
         == ApplyInOrder(old(parser.latexContent), parser.idToPosition, approved[..FirstMalformed(approved)])
  {
    var modified := parser.latexContent;
    for k := 0 to |approved|
      invariant forall j :: 0 <= j < k ==> WellFormed(approved[j])
      invariant modified == parser.latexContent
      invariant modified == ApplyInOrder(old(parser.latexContent), parser.idToPosition, approved[..k])
    {
      var s := approved[k];
      if s.elementId.None? || s.action.None? {
        assert FirstMalformed(approved) == k;
        return None;
      }
      assert approved[..k + 1][..k] == approved[..k];
      assert ApplyInOrder(old(parser.latexContent), parser.idToPosition, approved[..k + 1])
          == Step(modified, parser.idToPosition, s);
      var id, action := s.elementId.value, s.action.value;
      var text := "";
      if s.suggestedText.Some? && s.suggestedText.value != "" {
        text := EscapeLatexV2(s.suggestedText.value);
      }
      assert text == SuggestedText(s);
      if action == "add_to" {
        var res := AddBullet(modified, parser.idToPosition, id, text);
        if res.Failure? {
          continue;
        }
        modified := res.value;
      } else if action == "modify" {
        var res := parser.ApplyEditById(id, "modify", text);
        if res.Failure? {
          continue;
        }
        modified := res.value;
      } else if action == "remove" {
        var res := parser.ApplyEditById(id, "remove", "");
        if res.Failure? {
          continue;
        }
        modified := res.value;
      }
      parser.latexContent := modified;
    }
    assert approved[..|approved|] == approved;
    r := Some(modified);
  }

  // ---------------------------------------------------------------------------
  // Where a step acts
  // ---------------------------------------------------------------------------

  /** The parts of a text that a span inside `p` selects are the same in
      `p + q`, apart from the suffix, which carries `q`. */
  lemma SpanPartsLocal(p: string, q: string, sp: Span)
    requires sp.start <= sp.end <= |p|
    ensures PySlice(p + q, sp.start, sp.end) == PySlice(p, sp.start, sp.end)
    ensures PyPrefix(p + q, sp.start) == PyPrefix(p, sp.start)
    ensures PySuffix(p + q, sp.end) == PySuffix(p, sp.end) + q
  {
    var a, b, pq := sp.start, sp.end, p + q;
    assert pq[a..b] == p[a..b];
    assert pq[..a] == p[..a];
    assert pq[b..] == p[b..] + q;
  }

  lemma AddBulletLocal(p: string, q: string, positions: map<string, Span>, id: string, t: string)
    requires id in positions && positions[id].start <= positions[id].end <= |p|
    ensures AddBullet(p + q, positions, id, t).Success? == AddBullet(p, positions, id, t).Success?
    ensures AddBullet(p, positions, id, t).Success? ==>
              AddBullet(p + q, positions, id, t).value == AddBullet(p, positions, id, t).value + q
  {
    var sp := positions[id];
    SpanPartsLocal(p, q, sp);
    if AddBullet(p, positions, id, t).Success? {
      AddBulletPoint(p, sp);
      var at := sp.start + Find(PySlice(p, sp.start, sp.end), ListEnd, 0);
      SpanPartsLocal(p, q, Span(at, at));
      AppendAssoc(PyPrefix(p, at) + NewBullet(t), PySuffix(p, at), q);
    }
  }

  lemma EditLocal(p: string, q: string, positions: map<string, Span>, id: string, action: string, t: string)
    requires id in positions && positions[id].start <= positions[id].end <= |p|
    ensures ApplyEdit(p + q, positions, id, action, t).value == ApplyEdit(p, positions, id, action, t).value + q
  {
    var sp := positions[id];
    SpanPartsLocal(p, q, sp);
    var mid := if action == "remove" then "" else Rewrap(PySlice(p, sp.start, sp.end), t);
    AppendAssoc(PyPrefix(p, sp.start) + mid, PySuffix(p, sp.end), q);
  }

  /** A step whose span lies inside `p` does not look past it: appending text
      after `p` is carried through unchanged. */
  lemma StepLocal(p: string, q: string, positions: map<string, Span>, s: IdSuggestion)
    requires WellFormed(s) && s.elementId.value in positions
    requires positions[s.elementId.value].start <= positions[s.elementId.value].end <= |p|
    ensures Step(p + q, positions, s) == Step(p, positions, s) + q
  {
    var id, t := s.elementId.value, SuggestedText(s);
    if s.action.value == "add_to" {
      AddBulletLocal(p, q, positions, id, t);
    } else if s.action.value == "modify" {
      EditLocal(p, q, positions, id, "modify", t);
    } else if s.action.value == "remove" {
      EditLocal(p, q, positions, id, "remove", "");
    }
  }

  /** A step leaves the text in front of its span as it was. */
  lemma StepKeepsPrefix(text: string, positions: map<string, Span>, s: IdSuggestion)
    requires WellFormed(s) && s.elementId.value in positions
    requires positions[s.elementId.value].start <= positions[s.elementId.value].end
    ensures var r, a := Step(text, positions, s), Min(positions[s.elementId.value].start, |text|);
      a <= |r| && r[..a] == text[..a]
  {
    var id, t := s.elementId.value, SuggestedText(s);
    var sp := positions[id];
    if s.action.value == "add_to" {
      if AddBullet(text, positions, id, t).Success? {
        AddBulletInserts(text, positions, id, t);
      }
    } else if s.action.value == "modify" {
      SpliceUndo(text, sp, Rewrap(PySlice(text, sp.start, sp.end), t));
    } else if s.action.value == "remove" {
      SpliceUndo(text, sp, "");
    }
  }

  /** Two records whose spans are ordered back to front, the later one in
      the text applied first: the first acts on the text as parsed and the
      second on the untouched part in front of the first's span, exactly as
      it would on the parsed text alone. */
  lemma ApplyTwo(text: string, positions: map<string, Span>, s1: IdSuggestion, s2: IdSuggestion)
    requires WellFormed(s1) && WellFormed(s2)
    ensures ApplyInOrder(text, positions, [s1, s2]) == Step(Step(text, positions, s1), positions, s2)
  {
    assert [s1, s2][..1] == [s1];
    assert [s1][..0] == [];
    assert ApplyInOrder(text, positions, [s1]) == Step(text, positions, s1);
  }

  lemma BackToFront(text: string, positions: map<string, Span>, s1: IdSuggestion, s2: IdSuggestion)
    requires WellFormed(s1) && s1.elementId.value in positions
    requires WellFormed(s2) && s2.elementId.value in positions
    requires var sp1, sp2 := positions[s1.elementId.value], positions[s2.elementId.value];
      sp2.start <= sp2.end <= sp1.start <= sp1.end && sp1.start <= |text|
    ensures var a := positions[s1.elementId.value].start;
      && ApplyInOrder(text, positions, [s1, s2])
         == Step(text[..a], positions, s2) + Step(text, positions, s1)[a..]
      && Step(text, positions, s2) == Step(text[..a], positions, s2) + text[a..]
  {
    var a := positions[s1.elementId.value].start;
    ApplyTwo(text, positions, s1, s2);
    StepKeepsPrefix(text, positions, s1);
    StepOnPrefix(text, Step(text, positions, s1), a, positions, s2);
    StepOnPrefix(text, text, a, positions, s2);
  }

  /** A step whose span lies in front of `a`, on a text that agrees with
      `text` up to `a`, acts on `text[..a]` and keeps the rest. */
  lemma StepOnPrefix(text: string, r: string, a: nat, positions: map<string, Span>, s: IdSuggestion)
    requires WellFormed(s) && s.elementId.value in positions
    requires positions[s.elementId.value].start <= positions[s.elementId.value].end <= a
    requires a <= |text| && a <= |r| && r[..a] == text[..a]
    ensures Step(r, positions, s) == Step(text[..a], positions, s) + r[a..]
  {
    assert r == text[..a] + r[a..];
    StepLocal(text[..a], r[a..], positions, s);
  }

  /** The spans are not updated between records, so the order matters: on
      `"abcdef"` with `a` at 0-2 and `b` at 4-6, removing `a` and then `b`
      removes `"ab"` and, through the stale span of `b`, nothing more, while
      the other order removes both. */
  lemma StaleSpans()
    ensures var positions := map["a" := Span(0, 2), "b" := Span(4, 6)];
      var ra := IdSuggestion(Some("a"), Some("remove"), None);
      var rb := IdSuggestion(Some("b"), Some("remove"), None);
      && BatchById("abcdef", positions, [ra, rb]) == Some("cdef")
      && BatchById("abcdef", positions, [rb, ra]) == Some("cd")
  {
    var positions := map["a" := Span(0, 2), "b" := Span(4, 6)];
    var ra := IdSuggestion(Some("a"), Some("remove"), None);
    var rb := IdSuggestion(Some("b"), Some("remove"), None);
    assert Step("abcdef", positions, ra) == "cdef";
    assert Step("cdef", positions, rb) == "cdef";
    assert Step("abcdef", positions, rb) == "abcd";
    assert Step("abcd", positions, ra) == "cd";
    assert [ra, rb][..1] == [ra] && [rb, ra][..1] == [rb];
    assert [ra][..0] == [] && [rb][..0] == [];
    assert FirstMalformed([ra, rb]) == 2 && FirstMalformed([rb, ra]) == 2;
    assert ApplyInOrder("abcdef", positions, [ra]) == "cdef";
    assert ApplyInOrder("abcdef", positions, [ra, rb]) == "cdef";
    assert ApplyInOrder("abcdef", positions, [rb]) == "abcd";
    assert ApplyInOrder("abcdef", positions, [rb, ra]) == "cd";
  }
}
