/** The text clean-up around the language-model calls: markdown fences are
    cut from a response, the response is cut to its outermost `[`…`]`, its
    backslashes may be doubled for a second parse attempt, and the parsed
    records are filtered (app.py) or have their ids unbracketed
    (app_v2_parser.py). A LaTeX text is trimmed to begin at
    `\documentclass` before it is compiled or shown. */
module Cleanup {
  import opened Wrappers
  import opened PyStr

  // ---------------------------------------------------------------------------
  // Markdown fences
  // ---------------------------------------------------------------------------

  const Fence: string := "```"
  const JsonFence: string := "```json"

  /** `re.sub(r'^<lit>\n?', '', s)`: without MULTILINE, `^` only matches at
      index 0, so at most the leading `lit` and one newline after it go. */
  function DropLeading(s: string, lit: string): (r: string)
    ensures |r| <= |s| && r == s[|s| - |r|..]
    ensures StartsWith(s, lit) ==> |r| < |s| || lit == ""
    ensures StartsWith(s, lit) ==>
      if |s| > |lit| && s[|lit|] == '\n' then r == s[|lit| + 1..] else r == s[|lit|..]
    ensures !StartsWith(s, lit) ==> r == s
  {
    if StartsWith(s, lit) then
      var t := s[|lit|..];
      if |t| > 0 && t[0] == '\n' then t[1..] else t
    else s
  }

  /** Whether the three characters in front of index `j` are the fence. */
  predicate FenceEndsAt(s: string, j: int) {
    3 <= j <= |s| && s[j - 3] == '`' && s[j - 2] == '`' && s[j - 1] == '`'
  }

  /** Whether the pattern `\n?```$` matches `s[i..j]`: the fence, perhaps with
      a newline in front, followed by the end of the text or by a final
      newline (Python's `$`). */
  predicate TrailingFenceMatch(s: string, i: int, j: int) {
    && FenceEndsAt(s, j)
    && (i == j - 3 || (i == j - 4 && i >= 0 && s[i] == '\n'))
    && (j == |s| || (j == |s| - 1 && s[j] == '\n'))
  }

  /** The match `re.sub(r'\n?```$', '', s)` removes, as (start, end). */
  function TrailingFence(s: string): (r: Option<(nat, nat)>)
    ensures r.Some? ==> r.value.0 <= r.value.1 <= |s|
  {
    var j := if |s| > 0 && s[|s| - 1] == '\n' then |s| - 1 else |s|;
    if !FenceEndsAt(s, |s|) && !FenceEndsAt(s, j) then None
    else
      var e := if FenceEndsAt(s, |s|) then |s| else j;
      if e >= 4 && s[e - 4] == '\n' then Some((e - 4, e)) else Some((e - 3, e))
  }

  function DropTrailingFence(s: string): (r: string)
    ensures |r| <= |s|
  {
    match TrailingFence(s)
    case Some((i, j)) => s[..i] + s[j..]
    case None => s
  }

  /** `TrailingFence` finds the leftmost match of the pattern, and none when
      the pattern matches nowhere. */
  lemma TrailingFenceLeftmost(s: string)
    ensures match TrailingFence(s)
      case Some((i, j)) =>
        TrailingFenceMatch(s, i, j) && forall i', j' :: 0 <= i' < i ==> !TrailingFenceMatch(s, i', j')
      case None => forall i, j :: !TrailingFenceMatch(s, i, j)
  {
  }

  /** The three fence substitutions followed by `strip()`, as both
      `generate_suggestions` and `analyze_job` run them. */
  function CleanFences(s: string): string {
    Strip(DropTrailingFence(DropLeading(DropLeading(s, JsonFence), Fence)))
  }

  /** A body wrapped in a ```json fence comes back stripped, as long as it
      does not itself begin with a fence. */
  lemma CleanFencesWrapped(body: string)
    requires !StartsWith(body, Fence)
    ensures CleanFences(JsonFence + "\n" + body + "\n" + Fence) == Strip(body)
  {
    WrappedFront(body);
    WrappedBack(body);
  }

  /** The two leading substitutions remove the opening fence and its line
      break, and nothing of the body. */
  lemma WrappedFront(body: string)
    requires !StartsWith(body, Fence)
    ensures DropLeading(DropLeading(JsonFence + "\n" + body + "\n" + Fence, JsonFence), Fence)
      == body + "\n" + Fence
  {
    var s := JsonFence + "\n" + body + "\n" + Fence;
    assert StartsWith(s, JsonFence) by { assert s[..|JsonFence|] == JsonFence; }
    var t := body + "\n" + Fence;
    assert s[|JsonFence|] == '\n' && s[|JsonFence| + 1..] == t;
    assert !StartsWith(t, Fence) by {
      if |body| >= 3 {
        assert t[..3] == body[..3];
      } else {
        assert t[|body|] == '\n';
      }
    }
  }

  /** The trailing substitution removes the closing fence and the line break
      in front of it. */
  lemma WrappedBack(body: string)
    ensures DropTrailingFence(body + "\n" + Fence) == body
  {
    var t := body + "\n" + Fence;
    var n := |t|;
    assert t[n - 4] == '\n' && FenceEndsAt(t, n);
    assert TrailingFence(t) == Some((|body|, n));
    assert t[..|body|] + t[n..] == body;
  }

  // ---------------------------------------------------------------------------
  // Cutting to the JSON array
  // ---------------------------------------------------------------------------

  /** Drop the text in front of the first `[`, only when that `[` is at a
      positive index. */
  function CutFront(s: string): (r: string)
    ensures |r| <= |s|
  {
    if StartsWith(s, "[") then s
    else
      var k := Find(s, "[", 0);
      if k > 0 then s[k..] else s
  }

  /** Drop the text after the last `]`, only when that `]` is at a positive
      index. */
  function CutBack(s: string): (r: string)
    ensures |r| <= |s|
  {
    if EndsWith(s, "]") then s
    else
      var e := RFind(s, "]");
      if e > 0 then s[..e + 1] else s
  }

  function CutToBrackets(s: string): (r: string)
    ensures |r| <= |s|
  {
    CutBack(CutFront(s))
  }

  /** A one-character pattern occurs exactly where that character is. */
  lemma OccursSingle(s: string, c: char, j: int)
    ensures Occurs(s, [c], j) <==> 0 <= j < |s| && s[j] == c
  {
    if 0 <= j < |s| {
      assert s[j..j + 1] == [s[j]];
    }
  }

  /** The first `[` of a text that has one at `a`. */
  lemma FirstBracket(s: string, a: nat)
    requires a < |s| && s[a] == '['
    ensures var lo := Find(s, "[", 0);
      0 <= lo <= a && s[lo] == '[' && (StartsWith(s, "[") <==> lo == 0)
  {
    FindSpec(s, "[", 0);
    OccursSingle(s, '[', a);
    var lo := Find(s, "[", 0);
    OccursSingle(s, '[', lo);
    OccursSingle(s, '[', 0);
    if |s| > 0 {
      assert StartsWith(s, "[") <==> s[0] == '[' by { assert s[..1] == [s[0]]; }
    }
  }

  /** The last `]` of a suffix is the last `]` of the whole text, shifted. */
  lemma LastBracketShift(s: string, lo: nat, b: nat)
    requires lo <= b < |s| && s[b] == ']'
    ensures RFind(s[lo..], "]") == RFind(s, "]") - lo
  {
    var t := s[lo..];
    var e, f := RFind(t, "]"), RFind(s, "]");
    OccursSingle(s, ']', b);
    OccursSingle(t, ']', b - lo);
    assert t[b - lo] == s[b];
    OccursSingle(t, ']', e);
    OccursSingle(s, ']', f);
    OccursSingle(s, ']', e + lo);
    OccursSingle(t, ']', f - lo);
    if e >= 0 {
      assert t[e] == s[e + lo];
    }
    if f >= lo {
      assert t[f - lo] == s[f];
    }
  }

  lemma CutFrontShape(s: string, a: nat)
    requires a < |s| && s[a] == '['
    ensures 0 <= Find(s, "[", 0) <= a && CutFront(s) == s[Find(s, "[", 0)..]
  {
    FirstBracket(s, a);
  }

  lemma CutBackShape(t: string, c: nat)
    requires 0 < c < |t| && t[c] == ']'
    ensures var e := RFind(t, "]");
      c <= e < |t| && CutBack(t) == t[..e + 1] && t[e] == ']'
  {
    var e := RFind(t, "]");
    OccursSingle(t, ']', c);
    OccursSingle(t, ']', e);
    if EndsWith(t, "]") {
      assert t[|t| - 1] == ']' by { assert t[|t| - 1..] == "]"; }
      OccursSingle(t, ']', |t| - 1);
    }
  }

  lemma BracketEnds(s: string, lo: nat, hi: nat)
    requires lo <= hi < |s| && s[lo] == '[' && s[hi] == ']'
    ensures StartsWith(s[lo..hi + 1], "[") && EndsWith(s[lo..hi + 1], "]")
  {
    var r := s[lo..hi + 1];
    assert r[..1] == "[" by { assert r[0] == s[lo]; }
    assert r[|r| - 1..] == "]" by { assert r[|r| - 1] == s[hi]; }
  }

  /** Cutting a suffix back to its last `]`, in the coordinates of the whole
      text. */
  lemma CutBackOfSuffix(s: string, lo: nat, b: nat)
    requires lo < b < |s| && s[b] == ']'
    ensures b <= RFind(s, "]") < |s| && s[RFind(s, "]")] == ']'
    ensures CutBack(s[lo..]) == s[lo..RFind(s, "]") + 1]
  {
    var t := s[lo..];
    assert t[b - lo] == ']';
    CutBackShape(t, b - lo);
    LastBracketShift(s, lo, b);
    var e, hi := RFind(t, "]"), RFind(s, "]");
    assert t[..e + 1] == s[lo..hi + 1];
    assert t[e] == s[hi];
  }

  lemma CutToBracketsSlice(s: string, a: nat, b: nat)
    requires a < b < |s| && s[a] == '[' && s[b] == ']'
    ensures var lo := Find(s, "[", 0); 0 <= lo <= a && s[lo] == '['
    ensures b <= RFind(s, "]") < |s| && s[RFind(s, "]")] == ']'
    ensures CutToBrackets(s) == s[Find(s, "[", 0)..RFind(s, "]") + 1]
  {
    FirstBracket(s, a);
    CutFrontShape(s, a);
    CutBackOfSuffix(s, Find(s, "[", 0), b);
  }

  /** When a `[` comes before a `]`, the cut text runs from the first `[` to
      the last `]` of the input. */
  lemma CutToBracketsShape(s: string, a: nat, b: nat)
    requires a < b < |s| && s[a] == '[' && s[b] == ']'
    ensures var lo, hi := Find(s, "[", 0), RFind(s, "]");
      && 0 <= lo <= a && b <= hi < |s|
      && CutToBrackets(s) == s[lo..hi + 1]
      && StartsWith(CutToBrackets(s), "[") && EndsWith(CutToBrackets(s), "]")
  {
    CutToBracketsSlice(s, a, b);
    BracketEnds(s, Find(s, "[", 0), RFind(s, "]"));
  }

  // ---------------------------------------------------------------------------
  // Backslash doubling for the second parse attempt
  // ---------------------------------------------------------------------------

  /** `content.replace('\\', '\\\\')`. */
  function DoubleBackslashes(s: string): string {
    ReplaceAll(s, "\\", "\\\\")
  }

  /** Doubling is undone by turning each pair back into one backslash. */
  lemma {:induction false} DoubleBackslashesUndo(s: string)
    ensures ReplaceAll(DoubleBackslashes(s), "\\\\", "\\") == s
    decreases |s|
  {
    if |s| > 0 {
      DoubleBackslashesUndo(s[1..]);
      ReplaceCharStep(s, '\\', "\\\\");
      var rest := DoubleBackslashes(s[1..]);
      if s[0] == '\\' {
        var d := "\\\\" + rest;
        assert d[..2] == "\\\\" && d[2..] == rest;
      } else {
        var d := [s[0]] + rest;
        if |d| >= 2 {
          assert d[..2] != "\\\\" by { assert d[0] == s[0]; }
        }
        assert d[1..] == rest;
        assert s == [s[0]] + s[1..];
      }
    }
  }

  // ---------------------------------------------------------------------------
  // Parsed records
  // ---------------------------------------------------------------------------

  /** A parsed JSON value. Numbers are whole numbers here. */
  datatype Json =
    | JNull
    | JBool(b: bool)
    | JNum(n: int)
    | JStr(s: string)
    | JArr(items: seq<Json>)
    | JObj(fields: map<string, Json>)

  /** `json.loads`, which is not part of this model: it either gives a value
      or fails. */
  type Loads = string -> Option<Json>

  /** app.py's two attempts: parse as is, and on failure parse again with
      every backslash doubled. */
  function ParseLenient(loads: Loads, content: string): (r: Option<Json>)
    ensures r.Some? <==> loads(content).Some? || loads(DoubleBackslashes(content)).Some?
    ensures r == loads(content) || r == loads(DoubleBackslashes(content))
    ensures loads(content).Some? ==> r == loads(content)
  {
    match loads(content)
    case Some(j) => Some(j)
    case None => loads(DoubleBackslashes(content))
  }

  predicate IsModify(x: Json) {
    x.JObj? && "action" in x.fields && x.fields["action"] == JStr("modify")
  }

  /** The status loop of app.py: `status` becomes `pending` and
      `modified_text` a copy of `suggested_text` (empty when absent). */
  function MarkPending(x: Json): (r: Json)
    requires x.JObj?
    ensures r.JObj? && r.fields.Keys == x.fields.Keys + {"status", "modified_text"}
    ensures r.fields["status"] == JStr("pending")
    ensures r.fields["modified_text"] == if "suggested_text" in x.fields then x.fields["suggested_text"] else JStr("")
    ensures forall k :: k in x.fields && k != "status" && k != "modified_text" ==> r.fields[k] == x.fields[k]
  {
    var f := x.fields;
    JObj(f["status" := JStr("pending")]["modified_text" := if "suggested_text" in f then f["suggested_text"] else JStr("")])
  }

  /** The comprehension keeping the `modify` records, then the status loop.
      `s.get` on a record that is not an object raises, and the whole call
      then gives None. */
  function FilterModify(xs: seq<Json>): (r: Option<seq<Json>>)
    ensures r.Some? ==> |r.value| <= |xs|
    decreases |xs|
  {
    if xs == [] then Some([])
    else
      var x := xs[|xs| - 1];
      match FilterModify(xs[..|xs| - 1])
      case None => None
      case Some(ys) =>
        if !x.JObj? then None
        else if IsModify(x) then Some(ys + [MarkPending(x)])
        else Some(ys)
  }

  /** The filter fails exactly when some record is not an object. */
  lemma {:induction false} FilterModifyFails(xs: seq<Json>)
    ensures FilterModify(xs).None? <==> exists i :: 0 <= i < |xs| && !xs[i].JObj?
    decreases |xs|
  {
    if xs != [] {
      var n := |xs| - 1;
      FilterModifyFails(xs[..n]);
      if exists i :: 0 <= i < n && !xs[..n][i].JObj? {
        var i :| 0 <= i < n && !xs[..n][i].JObj?;
        assert !xs[i].JObj?;
      }
      if exists i :: 0 <= i < |xs| && !xs[i].JObj? {
        var i :| 0 <= i < |xs| && !xs[i].JObj?;
        if i < n {
          assert !xs[..n][i].JObj?;
        }
      }
    }
  }

  /** What survives the filter: every `modify` record, marked pending, and
      nothing else, in the original order. */
  lemma {:induction false} FilterModifyKeeps(xs: seq<Json>)
    requires FilterModify(xs).Some?
    ensures forall y :: y in FilterModify(xs).value ==>
              exists x :: x in xs && IsModify(x) && y == MarkPending(x)
    ensures forall i :: 0 <= i < |xs| && IsModify(xs[i]) ==> MarkPending(xs[i]) in FilterModify(xs).value
    decreases |xs|
  {
    if xs != [] {
      var n := |xs| - 1;
      FilterModifyKeeps(xs[..n]);
      forall i | 0 <= i < |xs| && IsModify(xs[i]) ensures MarkPending(xs[i]) in FilterModify(xs).value {
        if i < n {
          assert xs[..n][i] == xs[i];
        }
      }
      forall y | y in FilterModify(xs).value ensures exists x :: x in xs && IsModify(x) && y == MarkPending(x) {
        if y in FilterModify(xs[..n]).value {
          var x :| x in xs[..n] && IsModify(x) && y == MarkPending(x);
          assert x in xs;
        } else {
          assert xs[n] in xs;
        }
      }
    }
  }

  /** Filtering a concatenation filters each part: the order is kept. */
  lemma {:induction false} FilterModifyConcat(xs: seq<Json>, ys: seq<Json>)
    requires FilterModify(xs).Some? && FilterModify(ys).Some?
    ensures FilterModify(xs + ys) == Some(FilterModify(xs).value + FilterModify(ys).value)
    decreases |ys|
  {
    if ys == [] {
      assert xs + ys == xs;
      assert FilterModify(xs).value + [] == FilterModify(xs).value;
    } else {
      var n := |ys| - 1;
      assert (xs + ys)[..|xs + ys| - 1] == xs + ys[..n];
      assert (xs + ys)[|xs + ys| - 1] == ys[n];
      assert FilterModify(ys[..n]).Some?;
      FilterModifyConcat(xs, ys[..n]);
      if IsModify(ys[n]) {
        AppendAssoc(FilterModify(xs).value, FilterModify(ys[..n]).value, [MarkPending(ys[n])]);
      }
    }
  }

  /** `generate_suggestions` of app.py from the raw response on: fences,
      cut, two parse attempts, list check, filter. */
  function AppSuggestions(loads: Loads, response: string): (r: Option<seq<Json>>)
    ensures var j := ParseLenient(loads, CutToBrackets(CleanFences(response)));
      r.Some? <==> j.Some? && j.value.JArr? && forall i :: 0 <= i < |j.value.items| ==> j.value.items[i].JObj?
    ensures r.Some? ==> var j := ParseLenient(loads, CutToBrackets(CleanFences(response)));
      j.Some? && j.value.JArr? && r == FilterModify(j.value.items)
    ensures r.Some? ==> forall y :: y in r.value ==> IsModify(y) && "status" in y.fields && y.fields["status"] == JStr("pending")
  {
    var content := CutToBrackets(CleanFences(response));
    match ParseLenient(loads, content)
    case None => None
    case Some(j) =>
      if !j.JArr? then None
      else
        var r := FilterModify(j.items);
        FilterModifyFails(j.items);
        if r.Some? then FilterModifyKeeps(j.items); r else r
  }

  // ---------------------------------------------------------------------------
  // Unbracketing element ids (app_v2_parser.py)
  // ---------------------------------------------------------------------------

  const IdBrackets: set<char> := {'[', ']'}

  /** One pass of the loop body `if 'element_id' in s and isinstance(...)`:
      an object with a string id has the id stripped of `[` and `]` at both
      ends. `in` on a string is a substring test and on a list a membership
      test, and a true test then fails on `s['element_id']`; `in` on a number,
      a boolean or null fails. A failure ends the call with None. */
  function CleanId(x: Json): Option<Json> {
    match x
    case JObj(f) =>
      if "element_id" in f && f["element_id"].JStr? then
        Some(JObj(f["element_id" := JStr(StripChars(f["element_id"].s, IdBrackets))]))
      else Some(x)
    case JStr(t) => if Contains(t, "element_id") then None else Some(x)
    case JArr(items) => if JStr("element_id") in items then None else Some(x)
    case _ => None
  }

  /** The whole loop: every record cleaned, or None when one of them fails. */
  function CleanIds(xs: seq<Json>): Option<seq<Json>> {
    if forall i :: 0 <= i < |xs| ==> CleanId(xs[i]).Some? then
      Some(seq(|xs|, i requires 0 <= i < |xs| => CleanId(xs[i]).value))
    else None
  }

  /** The loop over the parsed list, updating each record in place. On
      failure the records before the failing one have been updated already. */
  method UnbracketIds(a: array<Json>) returns (ok: bool)
    modifies a
    ensures ok <==> CleanIds(old(a[..])).Some?
    ensures ok ==> a[..] == CleanIds(old(a[..])).value
  {
    ghost var xs := a[..];
    for i := 0 to a.Length
      invariant forall k :: 0 <= k < i ==> CleanId(xs[k]).Some? && a[k] == CleanId(xs[k]).value
      invariant a[i..] == xs[i..]
    {
      assert a[i] == xs[i] by { assert a[i..][0] == xs[i..][0]; }
      var c := CleanId(a[i]);
      if c.None? {
        return false;
      }
      a[i] := c.value;
      assert a[i + 1..] == xs[i + 1..] by {
        forall k | i + 1 <= k < a.Length ensures a[k] == xs[k] {
          assert a[k] == old(a[k]);
          assert a[i..][k - i] == xs[i..][k - i];
        }
      }
    }
    assert a[..] == CleanIds(xs).value;
    ok := true;
  }

  /** A cleaned id neither starts nor ends with a bracket, and cleaning twice
      changes nothing more. */
  lemma CleanIdStrips(x: Json)
    requires CleanId(x).Some?
    ensures var y := CleanId(x).value;
      && CleanId(y) == Some(y)
      && (y.JObj? && "element_id" in y.fields && y.fields["element_id"].JStr? ==>
            var id := y.fields["element_id"].s;
            id == "" || (id[0] !in IdBrackets && id[|id| - 1] !in IdBrackets))
  {
    match x
    case JObj(f) =>
      if "element_id" in f && f["element_id"].JStr? {
        var t := f["element_id"].s;
        StripCharsIdempotent(t, IdBrackets);
        StripCharsShape(t, IdBrackets);
        var g := f["element_id" := JStr(StripChars(t, IdBrackets))];
        assert g["element_id" := JStr(StripChars(StripChars(t, IdBrackets), IdBrackets))] == g;
      }
    case _ =>
  }

  /** Cleaning a whole list twice changes nothing more. */
  lemma CleanIdsIdempotent(xs: seq<Json>)
    requires CleanIds(xs).Some?
    ensures CleanIds(CleanIds(xs).value) == CleanIds(xs)
  {
    var ys := CleanIds(xs).value;
    forall i | 0 <= i < |ys| ensures CleanId(ys[i]) == Some(ys[i]) {
      CleanIdStrips(xs[i]);
    }
    assert seq(|ys|, i requires 0 <= i < |ys| => CleanId(ys[i]).value) == ys;
  }

  /** `"[abc]"` becomes `"abc"`: one pair of brackets round an id that does
      not start or end with a bracket is removed. */
  lemma StripBracketPair(id: string)
    requires id == "" || (id[0] !in IdBrackets && id[|id| - 1] !in IdBrackets)
    ensures StripChars("[" + id + "]", IdBrackets) == id
  {
    var s := "[" + id + "]";
    var r, lo := StripChars(s, IdBrackets), StripStart(s, IdBrackets);
    StripCharsShape(s, IdBrackets);
    if id == "" {
      StripCharsAll(s, IdBrackets);
    } else {
      assert s[1] == id[0] && s[|s| - 2] == id[|id| - 1];
      assert lo == 1;
      assert lo + |r| == |s| - 1;
      assert r == s[1..|s| - 1];
    }
  }

  /** `generate_suggestions` of app_v2_parser.py from the raw response on:
      strip, fences, cut, one parse attempt, list check, id clean-up. */
  function V2Suggestions(loads: Loads, response: string): (r: Option<seq<Json>>)
    ensures var j := loads(CutToBrackets(CleanFences(Strip(response))));
      r.Some? <==> j.Some? && j.value.JArr? && forall i :: 0 <= i < |j.value.items| ==> CleanId(j.value.items[i]).Some?
    ensures r.Some? ==> var j := loads(CutToBrackets(CleanFences(Strip(response))));
      j.Some? && j.value.JArr? && |r.value| == |j.value.items| && r == CleanIds(j.value.items)
    ensures r.Some? ==> CleanIds(r.value) == r
  {
    var content := CutToBrackets(CleanFences(Strip(response)));
    match loads(content)
    case None => None
    case Some(j) =>
      if !j.JArr? then None
      else
        var r := CleanIds(j.items);
        if r.Some? then CleanIdsIdempotent(j.items); r else r
  }

  // ---------------------------------------------------------------------------
  // Trimming to \documentclass
  // ---------------------------------------------------------------------------

  const DocumentClass: string := "\\documentclass"

  /** `re.search(r'\\documentclass', s)` and `s[match.start():]`. */
  function TrimToDocumentClass(s: string): (r: string)
    ensures |r| <= |s| && r == s[|s| - |r|..]
  {
    var k := Find(s, DocumentClass, 0);
    if k >= 0 then s[k..] else s
  }

  /** The trimmed text starts at the first `\documentclass` when there is
      one, and is the whole text otherwise. */
  lemma TrimSpec(s: string)
    ensures var r := TrimToDocumentClass(s);
      && (Contains(s, DocumentClass) ==>
            StartsWith(r, DocumentClass) && !Contains(s[..|s| - |r|], DocumentClass))
      && (!Contains(s, DocumentClass) ==> r == s)
  {
    var k := Find(s, DocumentClass, 0);
    FindSpec(s, DocumentClass, 0);
    if k >= 0 {
      var r := s[k..];
      assert r[..|DocumentClass|] == s[k..k + |DocumentClass|];
      var pre := s[..k];
      forall j | 0 <= j ensures !Occurs(pre, DocumentClass, j) {
        if j + |DocumentClass| <= |pre| {
          assert !Occurs(s, DocumentClass, j);
          assert pre[j..j + |DocumentClass|] == s[j..j + |DocumentClass|];
        }
      }
      ContainsSpec(pre, DocumentClass);
    }
  }

  /** Trimming twice trims nothing more. */
  lemma TrimIdempotent(s: string)
    ensures TrimToDocumentClass(TrimToDocumentClass(s)) == TrimToDocumentClass(s)
  {
    var r := TrimToDocumentClass(s);
    TrimSpec(s);
    if Contains(s, DocumentClass) {
      FindCharsAtZero(r, DocumentClass);
    } else {
      assert r == s;
    }
  }

  lemma FindCharsAtZero(s: string, pat: string)
    requires StartsWith(s, pat)
    ensures Find(s, pat, 0) == 0
  {
  }

  /** `re.sub(r'^.*?\\documentclass', r'\\documentclass', s, flags=re.DOTALL)`:
      the shortest prefix ending in the marker is replaced by the marker. */
  function LazyTrim(s: string): string {
    var k := Find(s, DocumentClass, 0);
    if k >= 0 then DocumentClass + s[k + |DocumentClass|..] else s
  }

  /** The substitution of app_v2_parser.py and the search-and-slice of app.py
      trim alike. */
  lemma LazyTrimAgrees(s: string)
    ensures LazyTrim(s) == TrimToDocumentClass(s)
  {
    var k := Find(s, DocumentClass, 0);
    FindSpec(s, DocumentClass, 0);
    if k >= 0 {
      assert s[k..] == s[k..k + |DocumentClass|] + s[k + |DocumentClass|..];
    }
  }

  // ---------------------------------------------------------------------------
  // Clean-up before compiling
  // ---------------------------------------------------------------------------

  /** `re.sub(lit + r'\n?', '', s)`: every occurrence of `lit`, left to right,
      goes together with one newline right after it. */
  function DropFenced(s: string, lit: string): (r: string)
    requires |lit| > 0
    ensures |r| <= |s|
    decreases |s|
  {
    if |s| < |lit| then s
    else if s[..|lit|] == lit then
      var t := s[|lit|..];
      if |t| > 0 && t[0] == '\n' then DropFenced(t[1..], lit) else DropFenced(t, lit)
    else [s[0]] + DropFenced(s[1..], lit)
  }

  /** app.py: trim, remove the fences with `str.replace`, strip. */
  function CompileCleanApp(s: string): string {
    Strip(ReplaceAll(ReplaceAll(TrimToDocumentClass(s), "```latex", ""), Fence, ""))
  }

  /** app_v2_parser.py: trim by substitution, then the two fence
      substitutions, each taking a newline after the fence with it. */
  function CompileCleanV2(s: string): string {
    DropFenced(DropFenced(LazyTrim(s), "```latex"), Fence)
  }

  /** Removing a pattern that starts with a character the prefix lacks leaves
      the prefix alone. */
  lemma {:induction false} ReplaceKeepsPrefix(p: string, q: string, pat: string, rep: string)
    requires |pat| > 0 && pat[0] !in p
    ensures ReplaceAll(p + q, pat, rep) == p + ReplaceAll(q, pat, rep)
    decreases |p|
  {
    var s := p + q;
    if |p| == 0 {
      assert s == q;
    } else if |s| < |pat| {
      assert ReplaceAll(q, pat, rep) == q;
      assert ReplaceAll(s, pat, rep) == s;
    } else {
      assert s[..|pat|] != pat by { assert s[0] == p[0]; }
      assert ReplaceAll(s, pat, rep) == [s[0]] + ReplaceAll(s[1..], pat, rep);
      assert s[1..] == p[1..] + q;
      ReplaceKeepsPrefix(p[1..], q, pat, rep);
      assert p == [p[0]] + p[1..];
    }
  }

  lemma {:induction false} DropFencedKeepsPrefix(p: string, q: string, lit: string)
    requires |lit| > 0 && lit[0] !in p
    ensures DropFenced(p + q, lit) == p + DropFenced(q, lit)
    decreases |p|
  {
    var s := p + q;
    if |p| == 0 {
      assert s == q;
    } else if |s| < |lit| {
      assert DropFenced(q, lit) == q;
      assert DropFenced(s, lit) == s;
    } else {
      assert s[..|lit|] != lit by { assert s[0] == p[0]; }
      assert DropFenced(s, lit) == [s[0]] + DropFenced(s[1..], lit);
      assert s[1..] == p[1..] + q;
      DropFencedKeepsPrefix(p[1..], q, lit);
      assert p == [p[0]] + p[1..];
    }
  }

  /** Whitespace after a head that neither starts nor ends with whitespace
      does not make `strip` cut into the head. */
  lemma StripKeepsHead(p: string, q: string)
    requires |p| > 0 && !IsSpace(p[0]) && !IsSpace(p[|p| - 1])
    ensures StartsWith(Strip(p + q), p)
  {
    var s := p + q;
    StripCharsShape(s, Whitespace);
    var r, lo := Strip(s), StripStart(s, Whitespace);
    assert s[0] == p[0];
    assert lo == 0;
    assert s[|p| - 1] == p[|p| - 1];
    assert |r| >= |p|;
    assert r[..|p|] == s[..|p|];
  }

  /** The text the trim leaves begins with the marker. */
  lemma TrimmedHead(s: string)
    requires Contains(s, DocumentClass)
    ensures var t := TrimToDocumentClass(s);
      |DocumentClass| <= |t| && t == DocumentClass + t[|DocumentClass|..]
  {
    TrimSpec(s);
  }

  lemma MarkerFacts()
    ensures '`' !in DocumentClass && "```latex"[0] == '`' && Fence[0] == '`'
    ensures !IsSpace(DocumentClass[0]) && !IsSpace(DocumentClass[|DocumentClass| - 1])
  {
  }

  lemma ReplaceFencesKeepHead(rest: string)
    ensures ReplaceAll(ReplaceAll(DocumentClass + rest, "```latex", ""), Fence, "")
         == DocumentClass + ReplaceAll(ReplaceAll(rest, "```latex", ""), Fence, "")
  {
    MarkerFacts();
    ReplaceKeepsPrefix(DocumentClass, rest, "```latex", "");
    ReplaceKeepsPrefix(DocumentClass, ReplaceAll(rest, "```latex", ""), Fence, "");
  }

  /** app.py's compile clean-up hands over a text that begins with
      `\documentclass` whenever the input contains it. */
  lemma CompileCleanAppHead(s: string)
    requires Contains(s, DocumentClass)
    ensures StartsWith(CompileCleanApp(s), DocumentClass)
  {
    TrimmedHead(s);
    var rest := TrimToDocumentClass(s)[|DocumentClass|..];
    ReplaceFencesKeepHead(rest);
    MarkerFacts();
    StripKeepsHead(DocumentClass, ReplaceAll(ReplaceAll(rest, "```latex", ""), Fence, ""));
  }

  /** So does the compile clean-up of app_v2_parser.py. */
  lemma CompileCleanV2Head(s: string)
    requires Contains(s, DocumentClass)
    ensures StartsWith(CompileCleanV2(s), DocumentClass)
  {
    TrimmedHead(s);
    LazyTrimAgrees(s);
    var t := TrimToDocumentClass(s);
    var rest := t[|DocumentClass|..];
    assert '`' !in DocumentClass;
    DropFencedKeepsPrefix(DocumentClass, rest, "```latex");
    var u := DropFenced(rest, "```latex");
    DropFencedKeepsPrefix(DocumentClass, u, Fence);
    var v := DocumentClass + DropFenced(u, Fence);
    assert v[..|DocumentClass|] == DocumentClass;
  }
}
