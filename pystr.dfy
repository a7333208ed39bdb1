/** The parts of Python's `str` behaviour the résumé tools rely on: searching
    (`find`, `rfind`, `in`, `startswith`, `endswith`), slicing with Python's
    clamping rules, `strip`, `replace`, `split('\n')` and `'\n'.join`. */
module PyStr {

  /** The characters for which Python's `str.isspace()` holds; the same set is
      what the regular-expression class `\s` matches on `str` patterns and what
      a bare `str.strip()` removes. */
  const Whitespace: set<char> := {
    '\t', '\n', '\U{000B}', '\U{000C}', '\r',
    '\U{001C}', '\U{001D}', '\U{001E}', '\U{001F}', ' ',
    '\U{0085}', '\U{00A0}', '\U{1680}',
    '\U{2000}', '\U{2001}', '\U{2002}', '\U{2003}', '\U{2004}', '\U{2005}',
    '\U{2006}', '\U{2007}', '\U{2008}', '\U{2009}', '\U{200A}',
    '\U{2028}', '\U{2029}', '\U{202F}', '\U{205F}', '\U{3000}'
  }

  predicate IsSpace(c: char) {
    c in Whitespace
  }

  function Min(a: int, b: int): int {
    if a <= b then a else b
  }

  /** Concatenation is associative (stated once so that loops appending to
      a sequence need not rediscover it). */
  lemma AppendAssoc<T>(a: seq<T>, b: seq<T>, c: seq<T>)
    ensures a + (b + c) == a + b + c
  {
  }

  // ---------------------------------------------------------------------------
  // Searching
  // ---------------------------------------------------------------------------

  /** `pat` occurs in `s` starting at index `i`. */
  predicate Occurs(s: string, pat: string, i: int) {
    0 <= i && i + |pat| <= |s| && s[i..i + |pat|] == pat
  }

  /** Python's `s.find(pat, from)`: the lowest index at or after `from` where
      `pat` occurs, or -1. */
  function Find(s: string, pat: string, from: nat): (r: int)
    ensures r == -1 || from <= r <= |s| - |pat|
    decreases |s| - from
  {
    if from + |pat| > |s| then -1
    else if s[from..from + |pat|] == pat then from
    else Find(s, pat, from + 1)
  }

  /** `find` returns the first occurrence at or after `from`, and -1 exactly
      when there is none. */
  lemma {:induction false} FindSpec(s: string, pat: string, from: nat)
    ensures var r := Find(s, pat, from);
      && (r == -1 || (from <= r && Occurs(s, pat, r)))
      && (r >= 0 ==> forall j :: from <= j < r ==> !Occurs(s, pat, j))
      && (r == -1 ==> forall j :: from <= j ==> !Occurs(s, pat, j))
    decreases |s| - from
  {
    if from + |pat| <= |s| && s[from..from + |pat|] != pat {
      FindSpec(s, pat, from + 1);
    }
  }

  /** The highest index `j <= hi` where `pat` occurs, or -1. */
  function FindAtOrBelow(s: string, pat: string, hi: int): (r: int)
    ensures r == -1 || (r <= hi && Occurs(s, pat, r))
    ensures forall j :: r < j <= hi ==> !Occurs(s, pat, j)
    decreases hi + 1
  {
    if hi < 0 then -1
    else if Occurs(s, pat, hi) then hi
    else FindAtOrBelow(s, pat, hi - 1)
  }

  /** Python's `s.rfind(pat)`: the highest index where `pat` occurs, or -1. */
  function RFind(s: string, pat: string): (r: int)
    ensures r == -1 || Occurs(s, pat, r)
    ensures forall j :: r < j ==> !Occurs(s, pat, j)
  {
    FindAtOrBelow(s, pat, |s|)
  }

  /** Python's `pat in s`. */
  predicate Contains(s: string, pat: string) {
    Find(s, pat, 0) >= 0
  }

  /** `pat in s` holds exactly when `pat` occurs somewhere in `s`. */
  lemma ContainsSpec(s: string, pat: string)
    ensures Contains(s, pat) <==> exists i :: Occurs(s, pat, i)
  {
    FindSpec(s, pat, 0);
  }

  /** The first index at or after `from` holding `c` is where `find` stops. */
  lemma {:induction false} FindCharAt(s: string, c: char, from: nat, k: nat)
    requires from <= k < |s| && s[k] == c
    requires forall i :: from <= i < k ==> s[i] != c
    ensures Find(s, [c], from) == k
    decreases k - from
  {
    assert s[from..from + 1] == [s[from]];
    if from < k {
      FindCharAt(s, c, from + 1, k);
    }
  }

  /** A slice of a slice is a slice of the whole string. */
  lemma SliceOfSlice(s: string, a: nat, b: nat, c: nat, d: nat)
    requires a <= b <= |s| && c <= d <= b - a
    ensures s[a..b][c..d] == s[a + c..a + d]
  {
    assert forall t :: 0 <= t < d - c ==> s[a..b][c..d][t] == s[a + c + t];
  }

  /** A piece of a string embedded at `base` of a bigger one is the bigger
      one's slice shifted by `base`. */
  lemma SliceShift(text: string, base: nat, content: string, a: nat, b: nat)
    requires base + |content| <= |text| && text[base..base + |content|] == content
    requires a <= b <= |content|
    ensures text[base + a..base + b] == content[a..b]
  {
    SliceOfSlice(text, base, base + |content|, a, b);
  }

  /** An occurrence of `w` inside an occurrence of `c` is one in the whole text. */
  lemma OccursCompose(s: string, j: nat, c: string, t: nat, w: string)
    requires Occurs(s, c, j) && Occurs(c, w, t)
    ensures Occurs(s, w, j + t)
  {
    SliceOfSlice(s, j, j + |c|, t, t + |w|);
  }

  /** The characters of an occurrence are those of the pattern. */
  lemma OccursChar(s: string, w: string, j: nat, t: nat)
    requires Occurs(s, w, j) && t < |w|
    ensures s[j + t] == w[t]
  {
    assert s[j..j + |w|][t] == s[j + t];
  }

  /** An occurrence inside a slice is an occurrence in the whole string. */
  lemma OccursInSlice(s: string, a: nat, b: nat, pat: string, j: int)
    requires a <= b <= |s| && Occurs(s[a..b], pat, j)
    ensures Occurs(s, pat, a + j)
  {
    SliceOfSlice(s, a, b, j, j + |pat|);
  }

  /** A pattern found in a slice is found in the whole string. */
  lemma ContainsInSlice(s: string, a: nat, b: nat, pat: string)
    requires a <= b <= |s| && Contains(s[a..b], pat)
    ensures Contains(s, pat)
  {
    var j := Find(s[a..b], pat, 0);
    FindSpec(s[a..b], pat, 0);
    OccursInSlice(s, a, b, pat, j);
    ContainsSpec(s, pat);
  }

  /** A pattern that does not contain `c` cannot straddle a `c`: when neither
      side has it, neither has the string glued around `c`. */
  lemma NoOccurAroundChar(x: string, c: char, y: string, pat: string)
    requires c !in pat && !Contains(x, pat) && !Contains(y, pat)
    ensures !Contains(x + [c] + y, pat)
  {
    var w := x + [c] + y;
    ContainsSpec(x, pat);
    ContainsSpec(y, pat);
    forall j | 0 <= j ensures !Occurs(w, pat, j) {
      if j + |pat| > |w| {
      } else if j + |pat| <= |x| {
        assert x[j..j + |pat|] == w[j..j + |pat|];
        assert !Occurs(x, pat, j);
      } else if j > |x| {
        assert y[j - |x| - 1..j - |x| - 1 + |pat|] == w[j..j + |pat|];
        assert !Occurs(y, pat, j - |x| - 1);
      } else {
        assert w[j..j + |pat|][|x| - j] == c;
      }
    }
    ContainsSpec(w, pat);
  }

  /** An occurrence stays an occurrence when text is put in front. */
  lemma ContainsAfterPrefix(pre: string, y: string, pat: string)
    requires Contains(y, pat)
    ensures Contains(pre + y, pat)
  {
    ContainsSpec(y, pat);
    var j :| Occurs(y, pat, j);
    var w := pre + y;
    assert w[|pre| + j..|pre| + j + |pat|] == y[j..j + |pat|];
    assert Occurs(w, pat, |pre| + j);
    ContainsSpec(w, pat);
  }

  /** A prefix without the pattern's first character cannot start an
      occurrence. */
  lemma NoOccurAfterPrefix(pre: string, y: string, pat: string)
    requires |pat| > 0 && pat[0] !in pre && !Contains(y, pat)
    ensures !Contains(pre + y, pat)
  {
    var w := pre + y;
    ContainsSpec(y, pat);
    forall j | 0 <= j ensures !Occurs(w, pat, j) {
      if j + |pat| > |w| {
      } else if j < |pre| {
        assert w[j..j + |pat|][0] == pre[j];
      } else {
        assert y[j - |pre|..j - |pre| + |pat|] == w[j..j + |pat|];
        assert !Occurs(y, pat, j - |pre|);
      }
    }
    ContainsSpec(w, pat);
  }

  predicate StartsWith(s: string, p: string) {
    |p| <= |s| && s[..|p|] == p
  }

  predicate EndsWith(s: string, p: string) {
    |p| <= |s| && s[|s| - |p|..] == p
  }

  // ---------------------------------------------------------------------------
  // Slicing with Python's clamping
  // ---------------------------------------------------------------------------

  /** Python's `s[a:b]` for non-negative bounds: both bounds are clamped to
      `len(s)`, and a start past the end gives the empty string. */
  function PySlice(s: string, a: nat, b: nat): (r: string)
    ensures a <= b <= |s| ==> r == s[a..b]
    ensures |r| == if a <= Min(b, |s|) then Min(b, |s|) - a else 0
  {
    var hi := Min(b, |s|);
    if a <= hi then s[a..hi] else ""
  }

  /** A slice that starts inside the string is found in it where it starts. */
  lemma PySliceAt(s: string, a: nat, b: nat)
    requires a <= |s|
    ensures Occurs(s, PySlice(s, a, b), a)
  {
  }

  /** Python's `s[:n]`: a prefix of `s`, as long as `n` allows. */
  function PyPrefix(s: string, n: nat): (r: string)
    ensures |r| == Min(n, |s|) && r <= s
  {
    s[..Min(n, |s|)]
  }

  /** Python's `s[n:]`: what `s[:n]` leaves, so that `s[:n] + s[n:] == s`. */
  function PySuffix(s: string, n: nat): (r: string)
    ensures |r| == |s| - Min(n, |s|) && PyPrefix(s, n) + r == s
  {
    s[Min(n, |s|)..]
  }

  /** Cutting a string at two ordered positions and gluing the pieces back
      gives the string itself. */
  lemma SliceDecompose(s: string, a: nat, b: nat)
    requires a <= b
    ensures PyPrefix(s, a) + PySlice(s, a, b) + PySuffix(s, b) == s
  {
    var lo, hi := Min(a, |s|), Min(b, |s|);
    assert s == s[..lo] + s[lo..hi] + s[hi..];
  }

  // ---------------------------------------------------------------------------
  // strip
  // ---------------------------------------------------------------------------

  /** Python's `s.lstrip(chars)` with `chars` given as a set. */
  function LStrip(s: string, cs: set<char>): (r: string)
    ensures |r| <= |s|
    decreases |s|
  {
    if |s| > 0 && s[0] in cs then LStrip(s[1..], cs) else s
  }

  /** `lstrip` keeps a suffix that does not start with a stripped character,
      and everything it cuts off is a stripped character. */
  lemma {:induction false} LStripSpec(s: string, cs: set<char>)
    ensures var r := LStrip(s, cs);
      && r == s[|s| - |r|..]
      && (r == "" || r[0] !in cs)
      && (forall k :: 0 <= k < |s| - |r| ==> s[k] in cs)
    decreases |s|
  {
    if |s| > 0 && s[0] in cs {
      LStripSpec(s[1..], cs);
    }
  }

  /** Python's `s.rstrip(chars)` with `chars` given as a set. */
  function RStrip(s: string, cs: set<char>): (r: string)
    ensures |r| <= |s|
    decreases |s|
  {
    if |s| > 0 && s[|s| - 1] in cs then RStrip(s[..|s| - 1], cs) else s
  }

  /** `rstrip` keeps a prefix that does not end with a stripped character, and
      everything it cuts off is a stripped character. */
  lemma {:induction false} RStripSpec(s: string, cs: set<char>)
    ensures var r := RStrip(s, cs);
      && r == s[..|r|]
      && (r == "" || r[|r| - 1] !in cs)
      && (forall k :: |r| <= k < |s| ==> s[k] in cs)
    decreases |s|
  {
    if |s| > 0 && s[|s| - 1] in cs {
      RStripSpec(s[..|s| - 1], cs);
    }
  }

  /** Python's `s.strip(chars)`. */
  function StripChars(s: string, cs: set<char>): string {
    RStrip(LStrip(s, cs), cs)
  }

  /** Python's `s.strip()`. */
  function Strip(s: string): string {
    StripChars(s, Whitespace)
  }

  /** Where the piece kept by `strip` begins in the input. */
  function StripStart(s: string, cs: set<char>): nat {
    |s| - |LStrip(s, cs)|
  }

  /** What `strip` keeps: a contiguous piece of the input that neither starts
      nor ends with a stripped character, everything cut off around it being
      stripped characters. */
  lemma StripCharsShape(s: string, cs: set<char>)
    ensures var r, lo := StripChars(s, cs), StripStart(s, cs);
      && lo + |r| <= |s| && r == s[lo..lo + |r|]
      && (forall k :: 0 <= k < lo ==> s[k] in cs)
      && (forall k :: lo + |r| <= k < |s| ==> s[k] in cs)
      && (r == "" || (r[0] !in cs && r[|r| - 1] !in cs))
  {
    var l := LStrip(s, cs);
    var r := RStrip(l, cs);
    var lo := |s| - |l|;
    LStripSpec(s, cs);
    RStripSpec(l, cs);
    assert r == s[lo..lo + |r|];
    forall k | lo + |r| <= k < |s| ensures s[k] in cs {
      assert s[k] == l[k - lo];
    }
  }

  /** Stripping twice strips nothing more. */
  lemma StripCharsIdempotent(s: string, cs: set<char>)
    ensures StripChars(StripChars(s, cs), cs) == StripChars(s, cs)
  {
    var r := StripChars(s, cs);
    StripCharsShape(s, cs);
    assert LStrip(r, cs) == r;
    assert RStrip(r, cs) == r;
  }

  /** A string made only of stripped characters strips to the empty string. */
  lemma StripCharsAll(s: string, cs: set<char>)
    requires forall k :: 0 <= k < |s| ==> s[k] in cs
    ensures StripChars(s, cs) == ""
  {
    LStripSpec(s, cs);
    assert LStrip(s, cs) == "";
  }

  /** Characters of `cs` in front of `s` do not change what `lstrip` keeps. */
  lemma {:induction false} LStripDropsLeading(pre: string, s: string, cs: set<char>)
    requires forall k :: 0 <= k < |pre| ==> pre[k] in cs
    ensures LStrip(pre + s, cs) == LStrip(s, cs)
    decreases |pre|
  {
    if |pre| > 0 {
      var t := pre + s;
      assert t[0] == pre[0];
      assert t[1..] == pre[1..] + s;
      LStripDropsLeading(pre[1..], s, cs);
    } else {
      assert pre + s == s;
    }
  }

  /** Stripped characters in front of `s` do not change its stripped form. */
  lemma StripCharsDropsLeading(pre: string, s: string, cs: set<char>)
    requires forall k :: 0 <= k < |pre| ==> pre[k] in cs
    ensures StripChars(pre + s, cs) == StripChars(s, cs)
  {
    LStripDropsLeading(pre, s, cs);
  }

  // ---------------------------------------------------------------------------
  // replace
  // ---------------------------------------------------------------------------

  /** Python's `s.replace(pat, rep)`: non-overlapping occurrences of `pat`,
      found left to right, are replaced by `rep`. */
  function ReplaceAll(s: string, pat: string, rep: string): (r: string)
    requires |pat| > 0
    decreases |s|
  {
    if |s| < |pat| then s
    else if s[..|pat|] == pat then rep + ReplaceAll(s[|pat|..], pat, rep)
    else [s[0]] + ReplaceAll(s[1..], pat, rep)
  }

  /** A pattern that does not occur leaves the text unchanged. */
  lemma {:induction false} ReplaceAbsent(s: string, pat: string, rep: string)
    requires |pat| > 0 && forall i :: !Occurs(s, pat, i)
    ensures ReplaceAll(s, pat, rep) == s
    decreases |s|
  {
    if |s| >= |pat| {
      assert !Occurs(s, pat, 0);
      forall j | Occurs(s[1..], pat, j) ensures Occurs(s, pat, j + 1) {
        assert s[j + 1..j + 1 + |pat|] == s[1..][j..j + |pat|];
      }
      ReplaceAbsent(s[1..], pat, rep);
      assert s == [s[0]] + s[1..];
    }
  }

  /** For a one-character pattern, replacing is done character by character,
      so it distributes over concatenation. */
  lemma {:induction false} ReplaceCharConcat(a: string, b: string, c: char, rep: string)
    ensures ReplaceAll(a + b, [c], rep) == ReplaceAll(a, [c], rep) + ReplaceAll(b, [c], rep)
    decreases |a|
  {
    if |a| == 0 {
      assert a + b == b;
    } else {
      var t := a + b;
      assert t[0] == a[0];
      assert t[1..] == a[1..] + b;
      ReplaceCharStep(t, c, rep);
      ReplaceCharStep(a, c, rep);
      ReplaceCharConcat(a[1..], b, c, rep);
    }
  }

  /** One step of a one-character replacement: the first character, then the rest. */
  lemma ReplaceCharStep(s: string, c: char, rep: string)
    requires |s| > 0
    ensures ReplaceAll(s, [c], rep) == (if s[0] == c then rep else [s[0]]) + ReplaceAll(s[1..], [c], rep)
  {
    assert s[..1] == [s[0]];
  }

  /** Replacing one character in a one-character string. */
  lemma ReplaceCharSingle(x: char, c: char, rep: string)
    ensures ReplaceAll([x], [c], rep) == if x == c then rep else [x]
  {
    assert [x][1..] == [];
  }

  /** A one-character pattern that does not occur leaves the text unchanged. */
  lemma ReplaceCharAbsent(s: string, c: char, rep: string)
    requires c !in s
    ensures ReplaceAll(s, [c], rep) == s
  {
    assert forall i :: Occurs(s, [c], i) ==> s[i] == c;
    ReplaceAbsent(s, [c], rep);
  }

  // ---------------------------------------------------------------------------
  // split and join
  // ---------------------------------------------------------------------------

  /** Python's `s.split(sep)` for a one-character separator: the pieces between
      separators, always at least one. */
  function Split(s: string, sep: char): (parts: seq<string>)
    ensures |parts| >= 1
    decreases |s|
  {
    if |s| == 0 then [""]
    else
      var rest := Split(s[1..], sep);
      if s[0] == sep then [""] + rest else [[s[0]] + rest[0]] + rest[1..]
  }

  /** Python's `sep.join(parts)`. */
  function Join(sep: string, parts: seq<string>): string
    decreases |parts|
  {
    if |parts| == 0 then ""
    else if |parts| == 1 then parts[0]
    else parts[0] + sep + Join(sep, parts[1..])
  }

  lemma JoinConsHead(sep: string, c: char, parts: seq<string>)
    requires |parts| >= 1
    ensures Join(sep, [[c] + parts[0]] + parts[1..]) == [c] + Join(sep, parts)
  {
    var q := [[c] + parts[0]] + parts[1..];
    assert q[1..] == parts[1..];
  }

  /** Joining the pieces of a split with the same separator gives back the
      original string, whatever it is. */
  lemma {:induction false} JoinSplit(s: string, sep: char)
    ensures Join([sep], Split(s, sep)) == s
    decreases |s|
  {
    if |s| > 0 {
      var rest := Split(s[1..], sep);
      JoinSplit(s[1..], sep);
      if s[0] == sep {
        assert ([""] + rest)[1..] == rest;
        assert s == [sep] + s[1..];
      } else {
        JoinConsHead([sep], s[0], rest);
        assert s == [s[0]] + s[1..];
      }
    }
  }

  /** No piece of a split contains the separator. */
  lemma {:induction false} SplitPiecesFree(s: string, sep: char)
    ensures forall k :: 0 <= k < |Split(s, sep)| ==> sep !in Split(s, sep)[k]
    decreases |s|
  {
    if |s| > 0 {
      SplitPiecesFree(s[1..], sep);
    }
  }
}
