/** The checks `analyze_job` makes on the job description before it asks the
    language model, and the handling of the model's reply: fences cut, a
    JSON object required, and four lists filled in when missing. */
module JobCheck {
  import opened Wrappers
  import opened PyStr
  import opened Cleanup

  const BeginDocumentMarker: string := "\\begin{document}"
  /** The fewest non-blank characters a job description must have. */
  const MinLength: nat := 50

  datatype JobError = MissingApiKey | LooksLikeResume | TooShort

  /** The three checks in their order: the key, then the LaTeX markers, then
      the length of the stripped text. */
  function ValidateJob(apiKey: string, jobDescription: string): (r: Option<JobError>)
    ensures r.None? <==> apiKey != "" && !Contains(jobDescription, DocumentClass)
                          && !Contains(jobDescription, BeginDocumentMarker)
                          && |Strip(jobDescription)| >= MinLength
  {
    if apiKey == "" then Some(MissingApiKey)
    else if Contains(jobDescription, DocumentClass) || Contains(jobDescription, BeginDocumentMarker) then
      Some(LooksLikeResume)
    else if jobDescription == "" || |Strip(jobDescription)| < MinLength then Some(TooShort)
    else None
  }

  /** A pasted résumé is reported as such, however short it is: the marker
      check comes before the length check. */
  lemma ResumeRejectedFirst(apiKey: string, pre: string, post: string)
    requires apiKey != ""
    ensures ValidateJob(apiKey, pre + DocumentClass + post) == Some(LooksLikeResume)
    ensures ValidateJob(apiKey, pre + BeginDocumentMarker + post) == Some(LooksLikeResume)
  {
    ContainsMiddle(pre, DocumentClass, post);
    ContainsMiddle(pre, BeginDocumentMarker, post);
  }

  lemma ContainsMiddle(pre: string, pat: string, post: string)
    ensures Contains(pre + pat + post, pat)
  {
    assert (pat + post)[..|pat|] == pat;
    assert Occurs(pat + post, pat, 0);
    ContainsSpec(pat + post, pat);
    ContainsAfterPrefix(pre, pat + post, pat);
    assert pre + pat + post == pre + (pat + post);
  }

  /** Blank text in front of a job description does not change the verdict:
      neither marker starts with a blank, and the length is measured after
      `strip()`. */
  lemma LeadingBlanksIgnored(apiKey: string, blanks: string, jobDescription: string)
    requires forall k :: 0 <= k < |blanks| ==> blanks[k] in Whitespace
    ensures ValidateJob(apiKey, blanks + jobDescription) == ValidateJob(apiKey, jobDescription)
  {
    StripCharsDropsLeading(blanks, jobDescription, Whitespace);
    assert DocumentClass[0] !in blanks && BeginDocumentMarker[0] !in blanks by {
      assert '\\' !in Whitespace;
    }
    if Contains(jobDescription, DocumentClass) {
      ContainsAfterPrefix(blanks, jobDescription, DocumentClass);
    } else {
      NoOccurAfterPrefix(blanks, jobDescription, DocumentClass);
    }
    if Contains(jobDescription, BeginDocumentMarker) {
      ContainsAfterPrefix(blanks, jobDescription, BeginDocumentMarker);
    } else {
      NoOccurAfterPrefix(blanks, jobDescription, BeginDocumentMarker);
    }
  }

  // ---------------------------------------------------------------------------
  // The reply
  // ---------------------------------------------------------------------------

  /** The four lists the rest of the program reads from an analysis. */
  const ListKeys: set<string> := {"required_skills", "preferred_skills", "technologies", "keywords"}

  /** `if key not in analysis: analysis[key] = []`, for one key. */
  function Default(f: map<string, Json>, key: string): (r: map<string, Json>)
    ensures key in r && r.Keys == f.Keys + {key}
    ensures key !in f ==> r[key] == JArr([])
    ensures forall k :: k in f ==> r[k] == f[k]
  {
    if key in f then f else f[key := JArr([])]
  }

  /** The four defaults, in the order the code writes them. */
  function WithDefaults(f: map<string, Json>): map<string, Json> {
    Default(Default(Default(Default(f, "required_skills"), "preferred_skills"), "technologies"), "keywords")
  }

  /** After the defaults all four lists are there, the keys that were there
      keep their values, and a key that was missing holds an empty list. */
  lemma WithDefaultsSpec(f: map<string, Json>)
    ensures var r := WithDefaults(f);
      && r.Keys == f.Keys + ListKeys
      && (forall k :: k in f ==> r[k] == f[k])
      && (forall k :: k in ListKeys && k !in f ==> r[k] == JArr([]))
  {
  }

  /** Filling in defaults a second time changes nothing. */
  lemma WithDefaultsIdempotent(f: map<string, Json>)
    ensures WithDefaults(WithDefaults(f)) == WithDefaults(f)
  {
    WithDefaultsSpec(f);
    WithDefaultsSpec(WithDefaults(f));
  }

  /** The reply must be non-empty and begin with `{` or `[` once cleaned. */
  predicate LooksLikeJson(content: string) {
    content != "" && (StartsWith(content, "{") || StartsWith(content, "["))
  }

  /** The part of `analyze_job` after the call: strip, fences, the JSON-start
      check, one parse attempt, the object check and the defaults. */
  function AnalyzeReply(loads: Loads, reply: string): (r: Option<map<string, Json>>)
    ensures r.Some? ==> ListKeys <= r.value.Keys
    ensures r.Some? ==> LooksLikeJson(CleanFences(Strip(reply)))
    ensures var c := CleanFences(Strip(reply));
      r.Some? <==> LooksLikeJson(c) && loads(c).Some? && loads(c).value.JObj?
    ensures var c := CleanFences(Strip(reply));
      r.Some? ==>
        && loads(c).Some? && loads(c).value.JObj? && r.value == WithDefaults(loads(c).value.fields)
        && forall k :: k in loads(c).value.fields ==> k in r.value && r.value[k] == loads(c).value.fields[k]
  {
    var content := CleanFences(Strip(reply));
    if !LooksLikeJson(content) then None
    else
      match loads(content)
      case Some(JObj(f)) => WithDefaultsSpec(f); Some(WithDefaults(f))
      case _ => None
  }
}
