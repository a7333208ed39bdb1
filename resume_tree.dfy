/** The parsed résumé: one node per section, entry, bullet and skill category,
    each carrying a short id derived from a hash of a key string, and the map
    from ids to the half-open character ranges of the text they came from. */
module ResumeTree {
  import opened PyStr

  /** A hex digest function: the key's MD5 `hexdigest`. The hash itself is a
      parameter of the model; nothing is assumed about it beyond being a
      function, so equal keys hash alike and distinct keys may collide. */
  type Digest = string -> string

  /** `_generate_id`: the first 12 characters of the key's digest (fewer only
      if the digest were shorter, as Python's slice clamps). */
  function GenerateId(digest: Digest, key: string): (id: string)
    ensures |id| == Min(12, |digest(key)|)
    ensures id <= digest(key)
  {
    PyPrefix(digest(key), 12)
  }

  /** A half-open range `[start, end)` of the résumé text. */
  datatype Span = Span(start: nat, end: nat)

  /** One write into the id map: `id_to_position[id] = span`. */
  type Reg = (string, Span)

  /** The id map after the writes `regs`, in order, on top of `m`. */
  function Register(m: map<string, Span>, regs: seq<Reg>): map<string, Span>
    decreases |regs|
  {
    if regs == [] then m
    else Register(m, regs[..|regs| - 1])[regs[|regs| - 1].0 := regs[|regs| - 1].1]
  }

  /** Writing two batches is writing their concatenation. */
  lemma {:induction false} RegisterAppend(m: map<string, Span>, a: seq<Reg>, b: seq<Reg>)
    ensures Register(Register(m, a), b) == Register(m, a + b)
    decreases |b|
  {
    if b == [] {
      assert a + b == a;
    } else {
      var b' := b[..|b| - 1];
      RegisterAppend(m, a, b');
      assert (a + b)[..|a + b| - 1] == a + b';
    }
  }

  /** Writing one more registration updates just that key. */
  lemma RegisterSnoc(m: map<string, Span>, regs: seq<Reg>, r: Reg)
    ensures Register(m, regs + [r]) == Register(m, regs)[r.0 := r.1]
  {
    assert (regs + [r])[..|regs|] == regs;
  }

  /** The id map holds exactly the old keys and the registered ones; a key's
      value is that of its last registration, or its old value when it was
      never registered. */
  lemma {:induction false} RegisterLookup(m: map<string, Span>, regs: seq<Reg>, id: string)
    ensures id in Register(m, regs) <==> id in m || exists k :: 0 <= k < |regs| && regs[k].0 == id
    ensures (forall k :: 0 <= k < |regs| ==> regs[k].0 != id) && id in m ==> Register(m, regs)[id] == m[id]
    ensures forall k :: 0 <= k < |regs| && regs[k].0 == id && (forall j :: k < j < |regs| ==> regs[j].0 != id) ==>
                Register(m, regs)[id] == regs[k].1
    decreases |regs|
  {
    if regs != [] {
      var pre := regs[..|regs| - 1];
      RegisterLookup(m, pre, id);
      forall k | 0 <= k < |pre| ensures pre[k] == regs[k] { }
      if id in m || exists k :: 0 <= k < |regs| && regs[k].0 == id {
        if regs[|regs| - 1].0 != id && !(id in m) {
          var k :| 0 <= k < |regs| && regs[k].0 == id;
          assert pre[k].0 == id;
        }
      }
    }
  }

  /** Every registered span lies in `[lo, hi]`. */
  predicate SpansIn(regs: seq<Reg>, lo: nat, hi: nat) {
    forall k :: 0 <= k < |regs| ==> lo <= regs[k].1.start <= regs[k].1.end <= hi
  }

  lemma SpansInConcat(a: seq<Reg>, b: seq<Reg>, lo: nat, hi: nat)
    requires SpansIn(a, lo, hi) && SpansIn(b, lo, hi)
    ensures SpansIn(a + b, lo, hi)
  {
    forall k | 0 <= k < |a + b| ensures lo <= (a + b)[k].1.start <= (a + b)[k].1.end <= hi {
      if k < |a| { assert (a + b)[k] == a[k]; } else { assert (a + b)[k] == b[k - |a|]; }
    }
  }

  lemma SpansInSnoc(a: seq<Reg>, r: Reg, lo: nat, hi: nat)
    requires SpansIn(a, lo, hi) && lo <= r.1.start <= r.1.end <= hi
    ensures SpansIn(a + [r], lo, hi)
  {
    SpansInConcat(a, [r], lo, hi);
  }

  lemma SpansInWiden(a: seq<Reg>, lo: nat, hi: nat, lo': nat, hi': nat)
    requires SpansIn(a, lo, hi) && lo' <= lo && hi <= hi'
    ensures SpansIn(a, lo', hi')
  {
  }

  /** Every span stored in the id map lies in `[lo, hi]`. */
  predicate MapSpansIn(m: map<string, Span>, lo: nat, hi: nat) {
    forall id :: id in m ==> lo <= m[id].start <= m[id].end <= hi
  }

  /** Registering spans that lie in `[lo, hi]` keeps the whole map in `[lo, hi]`. */
  lemma {:induction false} RegisterSpansIn(m: map<string, Span>, regs: seq<Reg>, lo: nat, hi: nat)
    requires MapSpansIn(m, lo, hi) && SpansIn(regs, lo, hi)
    ensures MapSpansIn(Register(m, regs), lo, hi)
    decreases |regs|
  {
    if regs != [] {
      RegisterSpansIn(m, regs[..|regs| - 1], lo, hi);
    }
  }

  datatype Bullet = Bullet(id: string, text: string)

  /** A `\resumeSubheading` entry of an experience section. */
  datatype Job = Job(id: string, title: string, company: string, dates: string,
                     location: string, bullets: seq<Bullet>)

  /** A `\resumeProjectHeading` entry of a projects section. */
  datatype Project = Project(id: string, name: string, technologies: string, bullets: seq<Bullet>)

  /** One `\textbf{category}{: items}` line of the skills section. */
  datatype Category = Category(id: string, category: string, items: string)

  /** A `\resumeSubheading` entry of the education section. */
  datatype School = School(id: string, degree: string, school: string, dates: string, location: string)

  datatype Section =
    | Experience(id: string, name: string, jobs: seq<Job>)
    | Projects(id: string, name: string, projects: seq<Project>)
    | Skills(id: string, name: string, categories: seq<Category>)
    | Education(id: string, name: string, schools: seq<School>)
    | Generic(id: string, name: string, content: string)

  /** The `type` field of a section node. */
  function TypeName(s: Section): string {
    match s
    case Experience(_, _, _) => "experience"
    case Projects(_, _, _) => "projects"
    case Skills(_, _, _) => "skills"
    case Education(_, _, _) => "education"
    case Generic(_, _, _) => "generic"
  }

  datatype Tree = Tree(sections: seq<Section>, preamble: string, documentClass: string)

  const EmptyTree := Tree([], "", "")
}
