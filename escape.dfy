/** The two `escape_latex` helpers: each walks a table of ten replacements
    and applies `str.replace` for each entry in turn. The tables hold the
    same entries; app.py puts the backslash first and app_v2_parser.py puts
    it last, and the two orders give different results. */
module Escape {
  import opened PyStr

  /** One entry of a replacement table: every `c` becomes `rep`. */
  datatype Rule = Rule(c: char, rep: string)

  /** The table of app.py, in its iteration order (backslash first). */
  const AppRules: seq<Rule> := [
    Rule('\\', "\\textbackslash{}"),
    Rule('%', "\\%"),
    Rule('$', "\\$"),
    Rule('#', "\\#"),
    Rule('_', "\\_"),
    Rule('&', "\\&"),
    Rule('{', "\\{"),
    Rule('}', "\\}"),
    Rule('~', "\\textasciitilde{}"),
    Rule('^', "\\textasciicircum{}")
  ]

  /** The table of app_v2_parser.py, in its iteration order (backslash last). */
  const V2Rules: seq<Rule> := [
    Rule('%', "\\%"),
    Rule('$', "\\$"),
    Rule('#', "\\#"),
    Rule('_', "\\_"),
    Rule('&', "\\&"),
    Rule('{', "\\{"),
    Rule('}', "\\}"),
    Rule('~', "\\textasciitilde{}"),
    Rule('^', "\\textasciicircum{}"),
    Rule('\\', "\\textbackslash{}")
  ]

  /** The ten characters both tables escape. */
  const Special: set<char> := {'\\', '%', '$', '#', '_', '&', '{', '}', '~', '^'}

  /** The replacements of `rules` applied one after another. */
  function ApplyRules(text: string, rules: seq<Rule>): string
    decreases |rules|
  {
    if rules == [] then text
    else
      var last := rules[|rules| - 1];
      ReplaceAll(ApplyRules(text, rules[..|rules| - 1]), [last.c], last.rep)
  }

  /** `escape_latex` of app.py: a falsy (empty) text is returned as is. */
  function AppEscape(text: string): string {
    if text == "" then text else ApplyRules(text, AppRules)
  }

  /** `escape_latex` of app_v2_parser.py, which has no falsy check. */
  function V2Escape(text: string): string {
    ApplyRules(text, V2Rules)
  }

  /** The loop over the table, one `replace` per entry. */
  method ReplaceEach(text: string, rules: seq<Rule>) returns (result: string)
    ensures result == ApplyRules(text, rules)
  {
    result := text;
    for i := 0 to |rules|
      invariant result == ApplyRules(text, rules[..i])
    {
      assert rules[..i + 1][..i] == rules[..i];
      result := ReplaceAll(result, [rules[i].c], rules[i].rep);
    }
    assert rules[..|rules|] == rules;
  }

  method EscapeLatexApp(text: string) returns (result: string)
    ensures result == AppEscape(text)
  {
    if text == "" {
      return text;
    }
    result := ReplaceEach(text, AppRules);
  }

  method EscapeLatexV2(text: string) returns (result: string)
    ensures result == V2Escape(text)
  {
    result := ReplaceEach(text, V2Rules);
  }

  // ---------------------------------------------------------------------------
  // Properties
  // ---------------------------------------------------------------------------

  lemma AppRulesCover()
    ensures forall r :: r in AppRules ==> r.c in Special
  {
  }

  lemma V2RulesCover()
    ensures forall r :: r in V2Rules ==> r.c in Special
  {
  }

  /** Replacements act on each piece of a concatenation separately. */
  lemma {:induction false} ApplyRulesConcat(a: string, b: string, rules: seq<Rule>)
    ensures ApplyRules(a + b, rules) == ApplyRules(a, rules) + ApplyRules(b, rules)
    decreases |rules|
  {
    if rules != [] {
      var n := |rules| - 1;
      ApplyRulesConcat(a, b, rules[..n]);
      ReplaceCharConcat(ApplyRules(a, rules[..n]), ApplyRules(b, rules[..n]), rules[n].c, rules[n].rep);
    }
  }

  /** Text holding none of the table's characters is left alone. */
  lemma {:induction false} ApplyRulesPlain(text: string, rules: seq<Rule>)
    requires forall r :: r in rules ==> r.c !in text
    ensures ApplyRules(text, rules) == text
    decreases |rules|
  {
    if rules != [] {
      var n := |rules| - 1;
      assert rules[n] in rules;
      ApplyRulesPlain(text, rules[..n]);
      ReplaceCharAbsent(text, rules[n].c, rules[n].rep);
    }
  }

  /** The empty text escapes to itself; app.py's falsy check therefore agrees
      with running the table. */
  lemma AppEscapeEmpty()
    ensures AppEscape("") == "" && V2Escape("") == ""
    ensures forall t :: AppEscape(t) == ApplyRules(t, AppRules)
  {
    ApplyRulesPlain("", V2Rules);
    ApplyRulesPlain("", AppRules);
  }

  /** Text with none of the ten special characters is unchanged by both. */
  lemma EscapePlain(text: string)
    requires forall i :: 0 <= i < |text| ==> text[i] !in Special
    ensures AppEscape(text) == text && V2Escape(text) == text
  {
    AppRulesCover();
    V2RulesCover();
    ApplyRulesPlain(text, AppRules);
    ApplyRulesPlain(text, V2Rules);
  }

  /** Both escapes work character by character. */
  lemma EscapeConcat(a: string, b: string)
    ensures AppEscape(a + b) == AppEscape(a) + AppEscape(b)
    ensures V2Escape(a + b) == V2Escape(a) + V2Escape(b)
  {
    AppEscapeEmpty();
    ApplyRulesConcat(a, b, AppRules);
    ApplyRulesConcat(a, b, V2Rules);
  }

  // ---------------------------------------------------------------------------
  // What the two orders do to single characters
  // ---------------------------------------------------------------------------

  /** Running a table in two parts is running the first part, then the second. */
  lemma {:induction false} ApplyRulesAppend(text: string, a: seq<Rule>, b: seq<Rule>)
    ensures ApplyRules(text, a + b) == ApplyRules(ApplyRules(text, a), b)
    decreases |b|
  {
    if b == [] {
      assert a + b == a;
    } else {
      var n := |b| - 1;
      assert (a + b)[..|a + b| - 1] == a + b[..n];
      ApplyRulesAppend(text, a, b[..n]);
    }
  }

  /** app.py turns `%` into `\%`. */
  lemma AppEscapePercent()
    ensures AppEscape("%") == "\\%"
  {
    var r0, r1, rest := AppRules[0], AppRules[1], AppRules[2..];
    assert AppRules == [r0] + [r1] + rest;
    ApplyRulesAppend("%", [r0] + [r1], rest);
    ApplyRulesAppend("%", [r0], [r1]);
    OneRule("%", r0);
    ReplaceCharSingle('%', '\\', "\\textbackslash{}");
    assert ApplyRules("%", [r0]) == "%";
    OneRule("%", r1);
    ReplaceCharSingle('%', '%', "\\%");
    assert ApplyRules("%", [r0] + [r1]) == "\\%";
    ApplyRulesPlain("\\%", rest);
  }

  /** Text that avoids every character of a set is left alone by rules that
      only replace characters of that set. */
  lemma ApplyRulesAvoid(text: string, rules: seq<Rule>, cs: set<char>)
    requires forall r :: r in rules ==> r.c in cs
    requires forall i :: 0 <= i < |text| ==> text[i] !in cs
    ensures ApplyRules(text, rules) == text
  {
    ApplyRulesPlain(text, rules);
  }

  /** One brace rule applied to `\textbackslash` followed by two characters. */
  lemma BraceStep(pre: string, x: char, y: char, c: char, rep: string)
    requires c !in pre
    ensures ReplaceAll(pre + [x] + [y], [c], rep)
         == pre + (if x == c then rep else [x]) + (if y == c then rep else [y])
  {
    ReplaceCharConcat(pre + [x], [y], c, rep);
    ReplaceCharConcat(pre, [x], c, rep);
    ReplaceCharAbsent(pre, c, rep);
    ReplaceCharSingle(x, c, rep);
    ReplaceCharSingle(y, c, rep);
  }

  lemma AppBackslashFirst()
    ensures ApplyRules("\\", AppRules[..6]) == "\\textbackslash{}"
  {
    var r0, mid := [AppRules[0]], AppRules[1..6];
    assert AppRules[..6] == r0 + mid;
    ApplyRulesAppend("\\", r0, mid);
    OneRule("\\", AppRules[0]);
    ReplaceCharSingle('\\', '\\', "\\textbackslash{}");
    assert ApplyRules("\\", r0) == "\\textbackslash{}";
    ApplyRulesAvoid("\\textbackslash{}", mid, {'%', '$', '#', '_', '&'});
  }

  /** A one-entry table is one `replace`. */
  lemma OneRule(text: string, r: Rule)
    ensures ApplyRules(text, [r]) == ReplaceAll(text, [r.c], r.rep)
  {
    assert [r][..0] == [];
  }

  lemma AppOpenBrace()
    ensures ApplyRules("\\textbackslash" + "{" + "}", [AppRules[6]]) == "\\textbackslash" + "\\" + "{" + "}"
  {
    OneRule("\\textbackslash" + "{" + "}", AppRules[6]);
    BraceStep("\\textbackslash", '{', '}', '{', "\\{");
  }

  lemma AppCloseBrace()
    ensures ApplyRules("\\textbackslash" + "\\" + "{" + "}", [AppRules[7]]) == "\\textbackslash" + "\\{" + "\\}"
  {
    OneRule("\\textbackslash" + "\\" + "{" + "}", AppRules[7]);
    BraceStep("\\textbackslash" + "\\", '{', '}', '}', "\\}");
  }

  lemma AppBackslashBraces()
    ensures ApplyRules("\\textbackslash{}", AppRules[6..8]) == "\\textbackslash" + "\\{" + "\\}"
  {
    var s1 := "\\textbackslash" + "{" + "}";
    assert s1 == "\\textbackslash{}";
    assert AppRules[6..8] == [AppRules[6]] + [AppRules[7]];
    ApplyRulesAppend(s1, [AppRules[6]], [AppRules[7]]);
    AppOpenBrace();
    AppCloseBrace();
  }

  lemma AppBackslashLast()
    ensures ApplyRules("\\textbackslash" + "\\{" + "\\}", AppRules[8..]) == "\\textbackslash" + "\\{" + "\\}"
  {
    ApplyRulesAvoid("\\textbackslash" + "\\{" + "\\}", AppRules[8..], {'~', '^'});
  }

  /** app.py escapes the backslash first, so the braces its replacement
      introduces are escaped again: a backslash becomes `\textbackslash\{\}`. */
  lemma AppEscapeBackslash()
    ensures AppEscape("\\") == "\\textbackslash" + "\\{" + "\\}"
  {
    assert AppRules == AppRules[..6] + AppRules[6..8] + AppRules[8..];
    ApplyRulesAppend("\\", AppRules[..6] + AppRules[6..8], AppRules[8..]);
    ApplyRulesAppend("\\", AppRules[..6], AppRules[6..8]);
    AppBackslashFirst();
    AppBackslashBraces();
    AppBackslashLast();
  }

  /** app_v2_parser.py escapes the backslash last, so it also rewrites the
      backslash the `%` rule introduced: `%` becomes `\textbackslash{}%`. */
  lemma V2EscapePercent()
    ensures V2Escape("%") == "\\textbackslash{}%"
  {
    var r0, mid, r9 := [V2Rules[0]], V2Rules[1..9], [V2Rules[9]];
    assert V2Rules == r0 + mid + r9;
    ApplyRulesAppend("%", r0 + mid, r9);
    ApplyRulesAppend("%", r0, mid);
    ReplaceCharSingle('%', '%', "\\%");
    ApplyRulesPlain("\\%", mid);
    ReplaceCharStep("\\%", '\\', "\\textbackslash{}");
    ReplaceCharSingle('%', '\\', "\\textbackslash{}");
    assert "\\%"[1..] == "%";
  }

  /** In app_v2_parser.py a backslash becomes `\textbackslash{}`, whose
      braces are not escaped again. */
  lemma V2EscapeBackslash()
    ensures V2Escape("\\") == "\\textbackslash{}"
  {
    var rest, r9 := V2Rules[..9], [V2Rules[9]];
    assert V2Rules == rest + r9;
    ApplyRulesAppend("\\", rest, r9);
    ApplyRulesPlain("\\", rest);
    ReplaceCharSingle('\\', '\\', "\\textbackslash{}");
  }

  /** The two helpers disagree, on `%` and on a backslash alike. */
  lemma EscapesDiffer()
    ensures AppEscape("%") != V2Escape("%")
    ensures AppEscape("\\") != V2Escape("\\")
  {
    AppEscapePercent();
    V2EscapePercent();
    AppEscapeBackslash();
    V2EscapeBackslash();
    assert |AppEscape("%")| != |V2Escape("%")|;
    assert |AppEscape("\\")| != |V2Escape("\\")|;
  }
}
