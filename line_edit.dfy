/** `apply_changes_by_line` of app.py: the résumé is split into lines, the
    suggestions are sorted by line number, highest first, and each one
    rewrites or marks one line of the list in place; marked lines are dropped
    at the end and the rest joined again. */
module LineEdit {
  import opened Wrappers
  import opened PyStr

  /** One approved suggestion: a 1-based line number, an action, and the
      replacement text (`modified_text`, empty when absent). */
  datatype LineSuggestion = LineSuggestion(lineNumber: int, action: string, modifiedText: string)

  /** The line list while edits are applied: `None` marks a removed line. */
  type Lines = seq<Option<string>>

  function Lift(ls: seq<string>): (r: Lines)
    ensures |r| == |ls| && forall i :: 0 <= i < |ls| ==> r[i] == Some(ls[i])
  {
    seq(|ls|, i requires 0 <= i < |ls| => Some(ls[i]))
  }

  // ---------------------------------------------------------------------------
  // Sorting
  // ---------------------------------------------------------------------------

  /** Puts `x` in front of the first element with a lower line number, so
      that among equal line numbers the earlier suggestion stays first. */
  function Insert(x: LineSuggestion, ys: seq<LineSuggestion>): (r: seq<LineSuggestion>)
    ensures |r| == |ys| + 1
    decreases |ys|
  {
    if ys == [] then [x]
    else if ys[0].lineNumber < x.lineNumber then [x] + ys
    else [ys[0]] + Insert(x, ys[1..])
  }

  /** `sorted(suggestions, key=line_number, reverse=True)`, which is stable. */
  function SortDesc(xs: seq<LineSuggestion>): (r: seq<LineSuggestion>)
    ensures |r| == |xs|
    decreases |xs|
  {
    if xs == [] then [] else Insert(xs[|xs| - 1], SortDesc(xs[..|xs| - 1]))
  }

  predicate Descending(ys: seq<LineSuggestion>) {
    forall i, j :: 0 <= i < j < |ys| ==> ys[i].lineNumber >= ys[j].lineNumber
  }

  lemma {:induction false} InsertMultiset(x: LineSuggestion, ys: seq<LineSuggestion>)
    ensures multiset(Insert(x, ys)) == multiset(ys) + multiset{x}
    decreases |ys|
  {
    if ys != [] && ys[0].lineNumber >= x.lineNumber {
      InsertMultiset(x, ys[1..]);
      assert ys == [ys[0]] + ys[1..];
    }
  }

  /** Inserting keeps a common upper bound of the line numbers. */
  lemma {:induction false} InsertBounded(x: LineSuggestion, ys: seq<LineSuggestion>, b: int)
    requires x.lineNumber <= b
    requires forall i :: 0 <= i < |ys| ==> ys[i].lineNumber <= b
    ensures forall i :: 0 <= i < |Insert(x, ys)| ==> Insert(x, ys)[i].lineNumber <= b
    decreases |ys|
  {
    if ys != [] && ys[0].lineNumber >= x.lineNumber {
      InsertBounded(x, ys[1..], b);
      var r, rest := Insert(x, ys), Insert(x, ys[1..]);
      assert r == [ys[0]] + rest;
      forall i | 0 <= i < |r| ensures r[i].lineNumber <= b {
        if i > 0 { assert r[i] == rest[i - 1]; }
      }
    }
  }

  lemma {:induction false} InsertSorted(x: LineSuggestion, ys: seq<LineSuggestion>)
    requires Descending(ys)
    ensures Descending(Insert(x, ys))
    decreases |ys|
  {
    if ys != [] && ys[0].lineNumber >= x.lineNumber {
      var tail := ys[1..];
      var rest := Insert(x, tail);
      InsertSorted(x, tail);
      forall i | 0 <= i < |tail| ensures tail[i].lineNumber <= ys[0].lineNumber {
        assert tail[i] == ys[i + 1];
      }
      InsertBounded(x, tail, ys[0].lineNumber);
      var r := Insert(x, ys);
      assert r == [ys[0]] + rest;
      forall i, j | 0 <= i < j < |r| ensures r[i].lineNumber >= r[j].lineNumber {
        assert r[j] == rest[j - 1];
        if i > 0 {
          assert r[i] == rest[i - 1];
        }
      }
    }
  }

  /** The sorted list runs from the highest line number down and holds
      exactly the suggestions given. */
  lemma SortDescSpec(xs: seq<LineSuggestion>)
    ensures Descending(SortDesc(xs)) && multiset(SortDesc(xs)) == multiset(xs)
  {
    SortDescSorted(xs);
    SortDescPermutes(xs);
  }

  lemma {:induction false} SortDescSorted(xs: seq<LineSuggestion>)
    ensures Descending(SortDesc(xs))
    decreases |xs|
  {
    if xs != [] {
      var n := |xs| - 1;
      SortDescSorted(xs[..n]);
      InsertSorted(xs[n], SortDesc(xs[..n]));
    }
  }

  lemma {:induction false} SortDescPermutes(xs: seq<LineSuggestion>)
    ensures multiset(SortDesc(xs)) == multiset(xs)
    decreases |xs|
  {
    if xs != [] {
      var n := |xs| - 1;
      var prev := SortDesc(xs[..n]);
      SortDescPermutes(xs[..n]);
      InsertMultiset(xs[n], prev);
      assert xs[..n] + [xs[n]] == xs;
      calc {
        multiset(SortDesc(xs));
        multiset(Insert(xs[n], prev));
        multiset(xs[..n]) + multiset{xs[n]};
        multiset(xs[..n] + [xs[n]]);
      }
    }
  }

  // ---------------------------------------------------------------------------
  // One suggestion
  // ---------------------------------------------------------------------------

  /** The loop body for one suggestion. A line number outside 1..len(lines)
      is skipped; `modify` puts the stripped text in the line unless it is
      empty; `remove` marks the line; `add_after` and anything else change
      nothing. */
  function Effect(lines: Lines, s: LineSuggestion): (r: Lines)
    ensures |r| == |lines|
  {
    var i := s.lineNumber - 1;
    if i < 0 || i >= |lines| then lines
    else if s.action == "modify" then
      var t := Strip(s.modifiedText);
      if t == "" then lines else lines[i := Some(t)]
    else if s.action == "remove" then lines[i := None]
    else lines
  }

  /** The suggestions applied one after another. */
  function ApplyAll(lines: Lines, ss: seq<LineSuggestion>): (r: Lines)
    ensures |r| == |lines|
    decreases |ss|
  {
    if ss == [] then lines else Effect(ApplyAll(lines, ss[..|ss| - 1]), ss[|ss| - 1])
  }

  /** `[line for line in lines if line is not None]`. */
  function Compact(lines: Lines): (r: seq<string>)
    ensures |r| <= |lines|
    decreases |lines|
  {
    if lines == [] then []
    else
      var rest := Compact(lines[..|lines| - 1]);
      match lines[|lines| - 1]
      case Some(l) => rest + [l]
      case None => rest
  }

  /** What `apply_changes_by_line` returns. */
  function LineEditResult(text: string, approved: seq<LineSuggestion>): string {
    Join("\n", Compact(ApplyAll(Lift(Split(text, '\n')), SortDesc(approved))))
  }

  // ---------------------------------------------------------------------------
  // Properties
  // ---------------------------------------------------------------------------

  /** What one suggestion does: a target outside 1..len(lines), an empty
      stripped `modify` text and any action but `modify` and `remove` leave
      the list as it is; `modify` sets the target line to the stripped text
      and `remove` marks it, and no other line changes. */
  lemma EffectSpec(lines: Lines, s: LineSuggestion)
    ensures var i, r, t := s.lineNumber - 1, Effect(lines, s), Strip(s.modifiedText);
      && (i < 0 || i >= |lines| ==> r == lines)
      && (s.action != "modify" && s.action != "remove" ==> r == lines)
      && (s.action == "modify" && t == "" ==> r == lines)
      && (0 <= i < |lines| && s.action == "modify" && t != "" ==> r[i] == Some(t))
      && (0 <= i < |lines| && s.action == "remove" ==> r[i] == None)
      && (forall j :: 0 <= j < |lines| && j != i ==> r[j] == lines[j])
  {
  }

  /** Suggestions for different lines can be applied in either order. */
  lemma EffectsCommute(lines: Lines, a: LineSuggestion, b: LineSuggestion)
    requires a.lineNumber != b.lineNumber
    ensures Effect(Effect(lines, a), b) == Effect(Effect(lines, b), a)
  {
    EffectSpec(lines, a);
    EffectSpec(lines, b);
    EffectSpec(Effect(lines, a), b);
    EffectSpec(Effect(lines, b), a);
  }

  lemma {:induction false} ApplyAllAppend(lines: Lines, xs: seq<LineSuggestion>, ys: seq<LineSuggestion>)
    ensures ApplyAll(lines, xs + ys) == ApplyAll(ApplyAll(lines, xs), ys)
    decreases |ys|
  {
    if ys == [] {
      assert xs + ys == xs;
    } else {
      var n := |ys| - 1;
      assert (xs + ys)[..|xs + ys| - 1] == xs + ys[..n];
      ApplyAllAppend(lines, xs, ys[..n]);
    }
  }

  /** A suggestion can be moved behind others that target other lines. */
  lemma {:induction false} MoveBehind(lines: Lines, x: LineSuggestion, zs: seq<LineSuggestion>)
    requires forall z :: z in zs ==> z.lineNumber != x.lineNumber
    ensures ApplyAll(lines, [x] + zs) == Effect(ApplyAll(lines, zs), x)
    decreases |zs|
  {
    if zs == [] {
      assert [x] + zs == [x];
      assert [x][..0] == [];
    } else {
      var n := |zs| - 1;
      assert ([x] + zs)[..|zs|] == [x] + zs[..n];
      assert zs[n] in zs;
      MoveBehind(lines, x, zs[..n]);
      EffectsCommute(ApplyAll(lines, zs[..n]), x, zs[n]);
    }
  }

  /** Applying a sorted list with `x` inserted is applying the list and then
      `x`: everything behind `x` has a lower line number. */
  lemma {:induction false} ApplyInsert(lines: Lines, x: LineSuggestion, ys: seq<LineSuggestion>)
    requires Descending(ys)
    ensures ApplyAll(lines, Insert(x, ys)) == Effect(ApplyAll(lines, ys), x)
    decreases |ys|
  {
    if ys == [] {
      assert [x][..0] == [];
    } else if ys[0].lineNumber < x.lineNumber {
      forall z | z in ys ensures z.lineNumber != x.lineNumber {
        var j :| 0 <= j < |ys| && ys[j] == z;
      }
      MoveBehind(lines, x, ys);
    } else {
      var head := ApplyAll(lines, [ys[0]]);
      ApplyAllAppend(lines, [ys[0]], Insert(x, ys[1..]));
      ApplyInsert(head, x, ys[1..]);
      ApplyAllAppend(lines, [ys[0]], ys[1..]);
      assert [ys[0]] + ys[1..] == ys;
    }
  }

  /** Sorting does not matter: marking removed lines instead of deleting
      them keeps every index valid, and the stable sort keeps suggestions for
      the same line in their given order, so applying the sorted list equals
      applying the list as given. */
  lemma {:induction false} SortIrrelevant(lines: Lines, ss: seq<LineSuggestion>)
    ensures ApplyAll(lines, SortDesc(ss)) == ApplyAll(lines, ss)
    decreases |ss|
  {
    if ss != [] {
      var n := |ss| - 1;
      SortIrrelevant(lines, ss[..n]);
      SortDescSpec(ss[..n]);
      ApplyInsert(lines, ss[n], SortDesc(ss[..n]));
    }
  }

  lemma {:induction false} CompactLift(ls: seq<string>)
    ensures Compact(Lift(ls)) == ls
    decreases |ls|
  {
    if ls != [] {
      var n := |ls| - 1;
      CompactLift(ls[..n]);
      assert Lift(ls)[..n] == Lift(ls[..n]);
    }
  }

  /** With no suggestions the text comes back exactly as it was. */
  lemma NoSuggestions(text: string)
    ensures LineEditResult(text, []) == text
  {
    CompactLift(Split(text, '\n'));
    JoinSplit(text, '\n');
  }

  /** Dropping marked lines keeps the surviving lines in order. */
  lemma {:induction false} CompactConcat(a: Lines, b: Lines)
    ensures Compact(a + b) == Compact(a) + Compact(b)
    decreases |b|
  {
    if b == [] {
      assert a + b == a;
    } else {
      var n := |b| - 1;
      assert (a + b)[..|a + b| - 1] == a + b[..n];
      CompactConcat(a, b[..n]);
    }
  }

  /** The indices of the marked lines. */
  function Marked(lines: Lines): set<nat> {
    set j | 0 <= j < |lines| && lines[j].None?
  }

  /** Dropping marked lines removes exactly as many lines as are marked. */
  lemma {:induction false} CompactCount(lines: Lines)
    ensures |Compact(lines)| == |lines| - |Marked(lines)|
    decreases |lines|
  {
    if lines != [] {
      var n := |lines| - 1;
      CompactCount(lines[..n]);
      if lines[n].None? {
        assert Marked(lines) == Marked(lines[..n]) + {n};
      } else {
        assert Marked(lines) == Marked(lines[..n]);
      }
    }
  }

  /** The lines a batch of removals targets, as 0-based indices. */
  function Targets(ss: seq<LineSuggestion>, n: nat): set<nat> {
    set s | s in ss && 1 <= s.lineNumber <= n :: (s.lineNumber - 1) as nat
  }

  lemma {:induction false} RemovalsMark(ls: seq<string>, ss: seq<LineSuggestion>)
    requires forall s :: s in ss ==> s.action == "remove"
    ensures Marked(ApplyAll(Lift(ls), ss)) == Targets(ss, |ls|)
    decreases |ss|
  {
    if ss != [] {
      var n := |ss| - 1;
      var s := ss[n];
      assert s in ss;
      assert forall t :: t in ss[..n] ==> t in ss;
      RemovalsMark(ls, ss[..n]);
      TargetsSnoc(ss, |ls|);
      var before := ApplyAll(Lift(ls), ss[..n]);
      assert ApplyAll(Lift(ls), ss) == Effect(before, s);
      if 1 <= s.lineNumber <= |ls| {
        MarkedRemove(before, s.lineNumber - 1);
      }
    }
  }

  /** One more suggestion adds its line to the targets when it is in range. */
  lemma TargetsSnoc(ss: seq<LineSuggestion>, m: nat)
    requires ss != []
    ensures var s := ss[|ss| - 1];
      Targets(ss, m)
      == Targets(ss[..|ss| - 1], m) + (if 1 <= s.lineNumber <= m then {(s.lineNumber - 1) as nat} else {})
  {
    var n := |ss| - 1;
    assert forall t :: t in ss <==> t in ss[..n] || t == ss[n] by {
      assert ss == ss[..n] + [ss[n]];
    }
  }

  lemma MarkedRemove(lines: Lines, i: nat)
    requires i < |lines|
    ensures Marked(lines[i := None]) == Marked(lines) + {i}
  {
  }

  /** A batch of removals leaves the original number of lines less the
      number of distinct lines it targets within range; a line targeted twice
      goes once. */
  lemma RemovalCount(text: string, ss: seq<LineSuggestion>)
    requires forall s :: s in ss ==> s.action == "remove"
    ensures var ls := Split(text, '\n');
      |Compact(ApplyAll(Lift(ls), SortDesc(ss)))| == |ls| - |Targets(ss, |ls|)|
  {
    var ls := Split(text, '\n');
    SortIrrelevant(Lift(ls), ss);
    RemovalsMark(ls, ss);
    CompactCount(ApplyAll(Lift(ls), ss));
  }

  // ---------------------------------------------------------------------------
  // The method
  // ---------------------------------------------------------------------------

  method ApplyChangesByLine(text: string, approved: seq<LineSuggestion>) returns (result: string)
    ensures result == LineEditResult(text, approved)
  {
    var split := Split(text, '\n');
    var lines := new Option<string>[|split|](i requires 0 <= i < |split| => Some(split[i]));
    assert lines[..] == Lift(split);
    var sorted := SortDesc(approved);
    for k := 0 to |sorted|
      invariant lines[..] == ApplyAll(Lift(split), sorted[..k])
    {
      assert sorted[..k + 1][..k] == sorted[..k];
      var s := sorted[k];
      var i := s.lineNumber - 1;
      if i < 0 || i >= lines.Length {
        continue;
      }
      if s.action == "modify" {
        var t := Strip(s.modifiedText);
        if t == "" {
          continue;
        }
        lines[i] := Some(t);
      } else if s.action == "remove" {
        lines[i] := None;
      }
    }
    assert sorted[..|sorted|] == sorted;
    var kept: seq<string> := [];
    for i := 0 to lines.Length
      invariant kept == Compact(lines[..i])
    {
      assert lines[..i + 1][..i] == lines[..i];
      if lines[i].Some? {
        kept := kept + [lines[i].value];
      }
    }
    assert lines[..lines.Length] == lines[..];
    result := Join("\n", kept);
  }
}
